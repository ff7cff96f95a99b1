/** The Matroska walker accepts exactly the streams of a grammar (src/chunker/matroska/walker.rs). */
module MatroskaGrammar {
  import opened Bytes
  import opened Matroska

  // Whole headers and payloads.

  /** An element's ID and size, each as long as its first byte says. */
  predicate IsHeader(id: seq<Byte>, size: seq<Byte>) {
    && id != [] && IdLen(id[0]) == Some(|id|)
    && size != [] && SizeLen(size[0]) == Some(|size|)
  }

  /** `n` bytes fit what is open. */
  predicate Roomy(open: seq<Open>, n: nat) {
    open != [] && open[0].remaining.Some? ==> n <= open[0].remaining.value
  }

  /** What is open, `n` bytes on. */
  function Less(open: seq<Open>, n: nat): seq<Open>
    requires Roomy(open, n)
  {
    if open == [] || open[0].remaining.None? then open
    else [open[0].(remaining := Some(open[0].remaining.value - n))] + open[1..]
  }

  lemma {:induction false} RunAppend(w: Walk, x: seq<Byte>, y: seq<Byte>)
    requires ValidState(w.state)
    ensures Run(w, x + y) == match Run(w, x) case None => None case Some(mid) => Run(mid, y)
  {
    hide Consume;
    if y == [] {
      assert x + y == x;
    } else {
      RunAppend(w, x, y[..|y| - 1]);
      assert (x + y)[..|x + y| - 1] == x + y[..|y| - 1];
    }
  }

  /** One byte taken from what is open. */
  lemma DebitLess(open: seq<Open>, n: nat)
    requires StackShape(open) && Roomy(open, n)
    ensures StackShape(Less(open, n))
    ensures Debit(Less(open, n)) == if Roomy(open, n + 1) then Some(Less(open, n + 1)) else None
  {
    hide Debit;
    DebitShape(Less(open, n));
    if Roomy(open, n + 1) {
      var d := Debit(Less(open, n)).value;
      assert |open| == 2 ==> open[1..] == [open[1]];
      assert d == Less(open, n + 1);
    }
  }

  lemma LessNothing(open: seq<Open>)
    ensures Roomy(open, 0) && Less(open, 0) == open
  {
    if open != [] {
      assert [open[0]] + open[1..] == open;
    }
  }

  /** The walker `k` bytes into an ID it began at `w`. */
  function AtIdByte(w: Walk, id: seq<Byte>, k: nat): Walk
    requires k <= |id| && Roomy(w.open, k)
  {
    w.(state := if k < |id| then Id(id[..k]) else SizeOf(id, []), open := Less(w.open, k))
  }

  lemma IdStep(w: Walk, id: seq<Byte>, k: nat)
    requires w.state == Id([]) && StackShape(w.open) && k < |id| && IdLen(id[0]) == Some(|id|) && Roomy(w.open, k)
    ensures ValidState(AtIdByte(w, id, k).state)
    ensures AfterStep(Consume(AtIdByte(w, id, k), id[k])) == if Roomy(w.open, k + 1) then Some(AtIdByte(w, id, k + 1)) else None
  {
    hide Debit, StackShape, Less, Roomy;
    DebitLess(w.open, k);
    assert id[..k] + [id[k]] == id[..k + 1] && id[..|id|] == id && id[..k + 1][0] == id[0];
    assert k > 0 ==> id[..k][0] == id[0];
  }

  lemma {:induction false} IdRun(w: Walk, id: seq<Byte>, k: nat)
    requires w.state == Id([]) && StackShape(w.open) && id != [] && IdLen(id[0]) == Some(|id|) && k <= |id|
    ensures Run(w, id[..k]) == if Roomy(w.open, k) then Some(AtIdByte(w, id, k)) else None
  {
    hide Consume, StackShape, Less, Roomy, IdLen;
    if k == 0 {
      assert id[..0] == [];
      LessNothing(w.open);
    } else {
      IdRun(w, id, k - 1);
      assert id[..k] == id[..k - 1] + [id[k - 1]] && id[..k][..k - 1] == id[..k - 1];
      RoomyBefore(w.open, k);
      if Roomy(w.open, k - 1) {
        IdStep(w, id, k - 1);
      }
    }
  }

  lemma RoomyBefore(open: seq<Open>, k: nat)
    requires 0 < k
    ensures Roomy(open, k) ==> Roomy(open, k - 1)
  {
  }

  /** The walker `k` bytes into a size it began at `w`, or past it. */
  function AtSizeByte(w: Walk, id: seq<Byte>, size: seq<Byte>, k: nat): Option<Walk>
    requires k <= |size| && Roomy(w.open, k) && 1 <= |size| <= 8
  {
    if k < |size| then Some(w.(state := SizeOf(id, size[..k]), open := Less(w.open, k)))
    else AfterStep(OpenElement(w.(state := Id([]), open := Less(w.open, k)), id, size))
  }

  lemma SizeStep(w: Walk, id: seq<Byte>, size: seq<Byte>, k: nat)
    requires StackShape(w.open) && IsHeader(id, size) && k < |size| && Roomy(w.open, k)
    ensures var at := AtSizeByte(w, id, size, k).value;
            && ValidState(at.state)
            && AfterStep(Consume(at, size[k])) == if Roomy(w.open, k + 1) then AtSizeByte(w, id, size, k + 1) else None
  {
    hide Debit, StackShape, Less, Roomy, OpenElement;
    DebitLess(w.open, k);
    assert size[..k] + [size[k]] == size[..k + 1] && size[..|size|] == size && size[..k + 1][0] == size[0];
    assert k > 0 ==> size[..k][0] == size[0];
  }

  lemma {:induction false} SizeRun(w: Walk, id: seq<Byte>, size: seq<Byte>, k: nat)
    requires w.state == SizeOf(id, []) && StackShape(w.open) && IsHeader(id, size) && k <= |size|
    ensures Run(w, size[..k]) == if Roomy(w.open, k) then AtSizeByte(w, id, size, k) else None
  {
    hide Consume, StackShape, Less, Roomy, IdLen, SizeLen, OpenElement;
    if k == 0 {
      assert size[..0] == [];
      LessNothing(w.open);
    } else {
      SizeRun(w, id, size, k - 1);
      assert size[..k] == size[..k - 1] + [size[k - 1]] && size[..k][..k - 1] == size[..k - 1];
      RoomyBefore(w.open, k);
      if Roomy(w.open, k - 1) {
        SizeStep(w, id, size, k - 1);
      }
    }
  }

  lemma LessTwice(open: seq<Open>, m: nat, n: nat)
    requires Roomy(open, m)
    ensures Roomy(Less(open, m), n) <==> Roomy(open, m + n)
    ensures Roomy(open, m + n) ==> Less(Less(open, m), n) == Less(open, m + n)
  {
  }

  /** A header is collected to its last byte, and its element is opened; a header that does not fit faults. */
  lemma HeaderRun(w: Walk, id: seq<Byte>, size: seq<Byte>)
    requires w.state == Id([]) && StackShape(w.open) && IsHeader(id, size)
    ensures var n := |id| + |size|;
            Run(w, id + size) ==
            if Roomy(w.open, n) then AfterStep(OpenElement(w.(open := Less(w.open, n)), id, size)) else None
  {
    hide OpenElement, Run, Less, Roomy, StackShape, IdLen, SizeLen, AtSizeByte;
    var m, n := |id|, |size|;
    assert id[..m] == id && size[..n] == size;
    IdRun(w, id, m);
    RunAppend(w, id, size);
    if Roomy(w.open, m) {
      var mid := AtIdByte(w, id, m);
      LessTwice(w.open, m, n);
      LessShape(w.open, m);
      SizeRun(mid, id, size, n);
      if Roomy(w.open, m + n) {
        SizeEnds(mid, id, size);
        assert mid.(state := Id([]), open := Less(mid.open, n)) == w.(open := Less(w.open, m + n));
      }
    } else {
      RoomyLess(w.open, m, n);
    }
  }

  lemma SizeEnds(w: Walk, id: seq<Byte>, size: seq<Byte>)
    requires Roomy(w.open, |size|) && 1 <= |size| <= 8
    ensures AtSizeByte(w, id, size, |size|) == AfterStep(OpenElement(w.(state := Id([]), open := Less(w.open, |size|)), id, size))
  {
  }

  lemma RoomyLess(open: seq<Open>, m: nat, n: nat)
    ensures Roomy(open, m + n) ==> Roomy(open, m)
  {
  }

  lemma LessShape(open: seq<Open>, n: nat)
    requires StackShape(open) && Roomy(open, n)
    ensures StackShape(Less(open, n))
  {
    DebitLess(open, n);
  }

  // A stream that gets there.

  /** An EBML header with nothing in it, a segment of five bytes, and the five-byte header of a cluster of unknown size. */
  const STUCK_STREAM: seq<Byte> := [0x1A, 0x45, 0xDF, 0xA3, 0x80] + [0x18, 0x53, 0x80, 0x67, 0x85] + [0x1F, 0x43, 0xB6, 0x75, 0xFF]

  lemma OneByteSize(b: Byte)
    requires 128 <= b
    ensures SizeLen(b) == Some(1) && SizeValue([b]) == Size(b % 128, b == 255)
  {
    var one: seq<Byte> := [b % 128];
    assert [b % Marker(1)] + [b][1..] == one;
    assert one[..0] == [] && Number(one) == b % 128;
    assert Power(128, 0) == 1 && Power(128, 1) == 128;
  }

  /** The stream exhausts its segment with a cluster's header, and is not accepted. */
  lemma StuckExample()
    ensures Run(START, STUCK_STREAM).Some? && Stuck(Run(START, STUCK_STREAM).value)
    ensures !Accepts(START, STUCK_STREAM)
  {
    hide Run, Number, SizeValue;
    var header, segment, cluster := [0x1A, 0x45, 0xDF, 0xA3], [0x18, 0x53, 0x80, 0x67], [0x1F, 0x43, 0xB6, 0x75];
    FourBytes(header);
    FourBytes(segment);
    FourBytes(cluster);
    OneByteSize(0x80);
    OneByteSize(0x85);
    OneByteSize(0xFF);
    var one := Walk(Id([]), [], true, false);
    HeaderRun(START, header, [0x80]);
    assert Run(START, header + [0x80]) == Some(one);
    var two := Walk(Id([]), [Open(Segment, Some(5))], true, true);
    HeaderRun(one, segment, [0x85]);
    assert [] + [Open(Segment, Some(5))] == [Open(Segment, Some(5))];
    assert Run(one, segment + [0x85]) == Some(two);
    HeaderRun(two, cluster, [0xFF]);
    RunAppend(START, header + [0x80], segment + [0x85]);
    RunAppend(START, header + [0x80] + (segment + [0x85]), cluster + [0xFF]);
    assert STUCK_STREAM == header + [0x80] + (segment + [0x85]) + (cluster + [0xFF]);
  }

  // The grammar: sections 4 and 6.2 of RFC 8794, with the elements of a segment and of a cluster.

  datatype Element = Element(id: nat, payload: Option<nat>, headerLen: nat)

  /** The element whose header is at the front of `s`, if the header is whole. */
  function ParseElement(s: seq<Byte>): (e: Option<Element>)
    ensures e.Some? ==> 2 <= e.value.headerLen <= |s|
  {
    if s == [] || IdLen(s[0]).None? then None
    else
      var m := IdLen(s[0]).value;
      if |s| <= m || SizeLen(s[m]).None? || |s| < m + SizeLen(s[m]).value then None
      else
        var n := m + SizeLen(s[m]).value;
        var size := SizeValue(s[m..n]);
        Some(Element(Number(s[..m]), if size.unknown then None else Some(size.value), n))
  }

  /** The element at the front of `s` has a payload of known size, all of it in `s`. */
  predicate Fits(s: seq<Byte>) {
    var e := ParseElement(s);
    e.Some? && e.value.payload.Some? && e.value.headerLen + e.value.payload.value <= |s|
  }

  /** What follows that element. */
  function After(s: seq<Byte>): (rest: seq<Byte>)
    requires Fits(s)
    ensures |rest| < |s|
  {
    s[ParseElement(s).value.headerLen + ParseElement(s).value.payload.value..]
  }

  /**
   * What a segment holds, or still holds. A cluster of unknown size ends where an element of the segment's level begins;
   * in a segment of known size it may not begin where the segment ends.
   */
  predicate Body(s: seq<Byte>, bounded: bool, inCluster: bool)
    decreases |s|
  {
    s == [] ||
    (ParseElement(s).Some? &&
     var e := ParseElement(s).value;
     if e.payload.None? then e.id == CLUSTER && (bounded ==> e.headerLen < |s|) && Body(s[e.headerLen..], bounded, true)
     else Fits(s) && (inCluster ==> IsClusterChild(e.id) || IsSegmentLevel(e.id))
          && Body(After(s), bounded, inCluster && IsClusterChild(e.id)))
  }

  /** The rest of a stream at top level: segments, and voids between them; `seen` when there has been a segment. */
  predicate Top(s: seq<Byte>, seen: bool)
    decreases |s|
  {
    if s == [] then seen
    else
      ParseElement(s).Some? &&
      var e := ParseElement(s).value;
      if e.id == SEGMENT then
        if e.payload.None? then Body(s[e.headerLen..], false, false)
        else Fits(s) && Body(s[e.headerLen..e.headerLen + e.payload.value], true, false) && Top(After(s), true)
      else e.id == VOID && Fits(s) && Top(After(s), seen)
  }

  /** A whole stream: an EBML header, then the top level. */
  predicate Stream(s: seq<Byte>) {
    ParseElement(s).Some? && ParseElement(s).value.id == EBML_HEADER && Fits(s) && Top(After(s), false)
  }

  // Walker and grammar, element by element.

  function HeaderId(s: seq<Byte>): seq<Byte>
    requires ParseElement(s).Some?
  {
    s[..IdLen(s[0]).value]
  }

  function HeaderSize(s: seq<Byte>): seq<Byte>
    requires ParseElement(s).Some?
  {
    s[IdLen(s[0]).value..ParseElement(s).value.headerLen]
  }

  lemma HeaderSplits(s: seq<Byte>)
    requires ParseElement(s).Some?
    ensures var id, size, e := HeaderId(s), HeaderSize(s), ParseElement(s).value;
            && IsHeader(id, size) && s[..e.headerLen] == id + size && |id| + |size| == e.headerLen
            && Number(id) == e.id && e.payload == if SizeValue(size).unknown then None else Some(SizeValue(size).value)
  {
  }

  /** A prefix that holds the whole header begins with the same element, and a shorter one with none. */
  lemma ParsePrefix(s: seq<Byte>, r: nat)
    requires r <= |s|
    ensures ParseElement(s[..r]) ==
            if ParseElement(s).Some? && ParseElement(s).value.headerLen <= r then ParseElement(s) else None
  {
    hide Number, SizeValue;
    var t := s[..r];
    if ParseElement(t).Some? {
      var m, n := IdLen(t[0]).value, ParseElement(t).value.headerLen;
      assert t[..m] == s[..m] && t[m..n] == s[m..n];
    } else if ParseElement(s).Some? && ParseElement(s).value.headerLen <= r {
      assert t[0] == s[0];
    }
  }

  /** Whatever the walker makes of a stream, it makes of its first `n` bytes and then of the others. */
  lemma AcceptsSplit(w: Walk, s: seq<Byte>, n: nat)
    requires ValidState(w.state) && n <= |s|
    ensures Accepts(w, s) <==> Run(w, s[..n]).Some? && Accepts(Run(w, s[..n]).value, s[n..])
  {
    hide Run;
    assert s == s[..n] + s[n..];
    RunAppend(w, s[..n], s[n..]);
  }

  /** A stream that ends inside a header is not accepted. */
  lemma NoHeaderRefused(w: Walk, s: seq<Byte>)
    requires w.state == Id([]) && StackShape(w.open) && s != [] && ParseElement(s).None?
    ensures !Accepts(w, s)
  {
    hide Run, Consume, Number, SizeValue, StackShape, Less, Roomy, OpenElement;
    if IdLen(s[0]).None? {
      IdFirstRefused(w, s[0]);
      FirstRefused(w, s);
    } else {
      var m := IdLen(s[0]).value;
      var padded := s + [0, 0, 0, 0];
      var id := padded[..m];
      if |s| <= m {
        assert id[..|s|] == s;
        IdRun(w, id, |s|);
        if Roomy(w.open, |s|) { NotBetween(AtIdByte(w, id, |s|)); }
      } else {
        assert s[..m] == id && id[..m] == id;
        IdRun(w, id, m);
        AcceptsSplit(w, s, m);
        if Roomy(w.open, m) {
          SizeRefused(AtIdByte(w, id, m), id, s[m..], w.open, m);
        }
      }
    }
  }

  lemma NotBetween(w: Walk)
    requires w.state != Id([])
    ensures !MayFinish(w)
  {
  }

  lemma FirstRefused(w: Walk, s: seq<Byte>)
    requires ValidState(w.state) && s != [] && Consume(w, s[0]).Stop?
    ensures !Accepts(w, s)
  {
    hide Consume;
    AcceptsSplit(w, s, 1);
    assert s[..1] == [s[0]] && s[..1][..0] == [];
    NothingFirst(w);
  }

  lemma NothingFirst(w: Walk)
    requires ValidState(w.state)
    ensures Run(w, []) == Some(w)
  {
  }

  lemma SizeRefused(w: Walk, id: seq<Byte>, s: seq<Byte>, open: seq<Open>, m: nat)
    requires w.state == SizeOf(id, []) && StackShape(open) && Roomy(open, m) && w.open == Less(open, m)
    requires id != [] && IdLen(id[0]) == Some(|id|) && s != [] && (SizeLen(s[0]).None? || |s| < SizeLen(s[0]).value)
    ensures !Accepts(w, s)
  {
    hide Run, StackShape, Less, Roomy, OpenElement, IdLen, SizeLen;
    LessShape(open, m);
    if SizeLen(s[0]).None? {
      SizeFirstRefused(w, s[0]);
      FirstRefused(w, s);
    } else {
      hide Consume;
      var padded := s + [0, 0, 0, 0, 0, 0, 0, 0];
      var size := padded[..SizeLen(s[0]).value];
      assert size[..|s|] == s && size[0] == s[0];
      SizeRun(w, id, size, |s|);
      if Roomy(w.open, |s|) { NotBetween(AtSizeByte(w, id, size, |s|).value); }
    }
  }

  lemma IdFirstRefused(w: Walk, b: Byte)
    requires w.state == Id([]) && IdLen(b).None?
    ensures Consume(w, b).Stop?
  {
  }

  lemma SizeFirstRefused(w: Walk, b: Byte)
    requires w.state.SizeOf? && w.state.size == [] && ValidState(w.state) && SizeLen(b).None?
    ensures Consume(w, b).Stop?
  {
  }

  /** A header that fits opens its element, and the rest is what is left to accept; one that does not is refused. */
  lemma HeaderAccepts(w: Walk, s: seq<Byte>)
    requires w.state == Id([]) && StackShape(w.open) && ParseElement(s).Some?
    ensures var n := ParseElement(s).value.headerLen;
            && (!Roomy(w.open, n) ==> !Accepts(w, s))
            && (Roomy(w.open, n) ==>
                  var step := OpenElement(w.(open := Less(w.open, n)), HeaderId(s), HeaderSize(s));
                  && (step.Stop? ==> !Accepts(w, s))
                  && (step.Go? ==> ValidState(step.next.state) && (Accepts(w, s) <==> Accepts(step.next, s[n..]))))
  {
    hide Run, Number, SizeValue, StackShape, Less, Roomy, OpenElement, Accepts;
    var n := ParseElement(s).value.headerLen;
    HeaderSplits(s);
    HeaderRun(w, HeaderId(s), HeaderSize(s));
    AcceptsSplit(w, s, n);
    if Roomy(w.open, n) && OpenElement(w.(open := Less(w.open, n)), HeaderId(s), HeaderSize(s)).Go? {
      OpenedValid(w.(open := Less(w.open, n)), HeaderId(s), HeaderSize(s));
    }
  }

  lemma OpenedValid(w: Walk, id: seq<Byte>, size: seq<Byte>)
    requires 1 <= |size| <= 8 && OpenElement(w, id, size).Go?
    ensures ValidState(OpenElement(w, id, size).next.state)
  {
    hide OpenElement;
  }

  /** The walker `k` bytes into a payload. */
  function InPayload(w: Walk, n: nat, k: nat): Walk
    requires k <= n && Roomy(w.open, k)
  {
    if k == n then w.(state := Id([]), open := CloseExhausted(Less(w.open, k))) else w.(state := Payload(n - k), open := Less(w.open, k))
  }

  lemma PayloadStep(w: Walk, n: nat, k: nat, b: Byte)
    requires StackShape(w.open) && k < n && Roomy(w.open, n)
    ensures Roomy(w.open, k) && Roomy(w.open, k + 1)
    ensures AfterStep(Consume(InPayload(w, n, k), b)) == Some(InPayload(w, n, k + 1))
  {
    hide Debit, StackShape, Less, CloseExhausted;
    DebitLess(w.open, k);
  }

  lemma {:induction false} PayloadRun(w: Walk, n: Pos, s: seq<Byte>)
    requires w.state == Payload(n) && StackShape(w.open) && Roomy(w.open, n) && |s| <= n
    ensures Roomy(w.open, |s|) && Run(w, s) == Some(InPayload(w, n, |s|))
  {
    hide Consume, StackShape, Less, CloseExhausted;
    if s == [] {
      LessNothing(w.open);
    } else {
      PayloadRun(w, n, s[..|s| - 1]);
      PayloadStep(w, n, |s| - 1, s[|s| - 1]);
    }
  }

  /** A payload that fits is counted to its last byte, and then what is exhausted closes. */
  lemma PayloadAccepts(w: Walk, n: nat, s: seq<Byte>)
    requires StackShape(w.open) && Roomy(w.open, n)
    ensures ValidState(BeginPayload(w, n).state)
    ensures Accepts(BeginPayload(w, n), s) <==>
            n <= |s| && Accepts(w.(state := Id([]), open := CloseExhausted(Less(w.open, n))), s[n..])
  {
    hide StackShape, Less, Roomy, CloseExhausted, Run;
    if n == 0 {
      LessNothing(w.open);
      assert s[0..] == s;
    } else if n <= |s| {
      var p := w.(state := Payload(n));
      PayloadRun(p, n, s[..n]);
      AcceptsSplit(p, s, n);
    } else {
      var p := w.(state := Payload(n));
      PayloadRun(p, n, s);
    }
  }

  /** What the grammar still wants where the walker stands between elements. */
  predicate Rest(w: Walk, s: seq<Byte>)
    requires StackShape(w.open)
  {
    if w.open == [] then Top(s, w.seenSegment)
    else if w.open[0].remaining.None? then Body(s, false, |w.open| == 2)
    else
      var r := w.open[0].remaining.value;
      r <= |s| && Body(s[..r], true, |w.open| == 2) && Top(s[r..], true)
  }

  /** A walker between elements, past the EBML header, with no container exhausted. */
  predicate Ready(w: Walk) {
    && w.state == Id([]) && StackShape(w.open) && w.seenHeader
    && (w.open != [] ==> w.seenSegment && w.open[0].remaining != Some(0))
  }

  predicate Agrees(w: Walk, s: seq<Byte>)
    requires Ready(w)
  {
    Accepts(w, s) <==> Rest(w, s)
  }

  /** From every point between elements on, the walker accepts exactly what the grammar wants there. */
  lemma {:induction false} WalkerMeetsGrammar(w: Walk, s: seq<Byte>)
    requires Ready(w)
    ensures Agrees(w, s)
    decreases |s|, 2
  {
    hide Run, ParseElement, OpenElement;
    if s == [] {
      NothingFirst(w);
      AgreesAtEnd(w);
    } else if ParseElement(s).None? {
      NoHeaderRefused(w, s);
      NoElementInside(w, s);
    } else if w.open == [] {
      AgreesTop(w, s);
    } else if w.open[0].remaining.None? {
      AgreesUnbounded(w, s);
    } else {
      AgreesBounded(w, s);
    }
  }

  lemma AgreesAtEnd(w: Walk)
    requires Ready(w) && Run(w, []) == Some(w)
    ensures Agrees(w, [])
  {
    hide Run;
  }

  lemma NoElementInside(w: Walk, s: seq<Byte>)
    requires Ready(w) && s != [] && ParseElement(s).None?
    ensures !Rest(w, s)
  {
    hide ParseElement;
    if w.open != [] && w.open[0].remaining.Some? && w.open[0].remaining.value <= |s| {
      ParsePrefix(s, w.open[0].remaining.value);
    }
  }

  /** What an element between elements of the top level does. */
  lemma TopOpens(w: Walk, s: seq<Byte>)
    requires Ready(w) && w.open == [] && ParseElement(s).Some?
    ensures var e, step := ParseElement(s).value, OpenElement(w, HeaderId(s), HeaderSize(s));
            step == TopLevel(w, e.id, e.payload)
  {
    hide ParseElement, TopLevel, Number, SizeValue;
    HeaderSplits(s);
  }

  lemma {:induction false} AgreesTop(w: Walk, s: seq<Byte>)
    requires Ready(w) && w.open == [] && s != [] && ParseElement(s).Some?
    ensures Agrees(w, s)
    decreases |s|, 1
  {
    hide Run, ParseElement, OpenElement, Accepts, CloseExhausted, Body, Less;
    var e := ParseElement(s).value;
    LessNothingOpen(w.open, e.headerLen);
    HeaderAccepts(w, s);
    TopOpens(w, s);
    var rest := s[e.headerLen..];
    if e.id == SEGMENT {
      assert [] + [Open(Segment, e.payload)] == [Open(Segment, e.payload)];
      CloseShape([Open(Segment, e.payload)]);
      var next := w.(open := CloseExhausted([Open(Segment, e.payload)]), seenSegment := true);
      WalkerMeetsGrammar(next, rest);
      if e.payload.Some? {
        var n := e.payload.value;
        if n == 0 { NothingInside(); }
        if Fits(s) {
          assert rest[..n] == s[e.headerLen..e.headerLen + n] && rest[n..] == After(s);
        }
      }
    } else if e.id == VOID && e.payload.Some? {
      var n := e.payload.value;
      PayloadAccepts(w, n, rest);
      LessNothingOpen(w.open, n);
      CloseShape(w.open);
      if n <= |rest| {
        assert rest[n..] == After(s);
        WalkerMeetsGrammar(w, After(s));
      }
    }
  }

  lemma LessNothingOpen(open: seq<Open>, n: nat)
    ensures open == [] || open[0].remaining.None? ==> Roomy(open, n) && Less(open, n) == open
  {
  }

  lemma NothingInside()
    ensures Body([], true, false)
  {
  }

  /** What an element inside a segment does, by the containers open once its header is in. */
  function InsideStep(w: Walk, e: Element): Step
    requires w.open != []
  {
    if e.payload.Some? && Room(w.open).Some? && e.payload.value > Room(w.open).value then Stop(ElementOverrunsParent)
    else if w.open[|w.open| - 1].kind == Cluster then ClusterChild(w, e.id, e.payload, e.headerLen)
    else SegmentChild(w, e.id, e.payload, e.headerLen)
  }

  lemma InsideOpens(w: Walk, s: seq<Byte>)
    requires w.open != [] && ParseElement(s).Some?
    ensures OpenElement(w, HeaderId(s), HeaderSize(s)) == InsideStep(w, ParseElement(s).value)
  {
    hide ParseElement, Number, SizeValue, SegmentChild, ClusterChild, Room;
    HeaderSplits(s);
  }

  /** The containers around an element of known size, once it is known to which it belongs. */
  function Holding(open: seq<Open>, id: nat): seq<Open>
    requires open != []
  {
    if |open| == 2 && !IsClusterChild(id) then open[..1] else open
  }

  /** The cases of an element inside a segment that has room for it. */
  lemma InsideCases(w: Walk, e: Element)
    requires w.open != [] && StackShape(w.open) && w.state == Id([])
    requires e.payload.Some? ==> Roomy(w.open, e.payload.value)
    ensures var step, inCluster := InsideStep(w, e), |w.open| == 2;
            if e.payload.None? then
              if e.id == CLUSTER then step.Go? && step.next == w.(open := [w.open[0], Open(Cluster, None)]) else step.Stop?
            else if inCluster && !IsClusterChild(e.id) && !IsSegmentLevel(e.id) then step.Stop?
            else step.Go? && step.next == BeginPayload(w.(open := Holding(w.open, e.id)), e.payload.value)
  {
    hide Room, BeginPayload;
    RoomShape(w.open);
    if |w.open| == 2 {
      assert w.open[..1] == [w.open[0]];
    }
  }

  lemma {:induction false} AgreesUnbounded(w: Walk, s: seq<Byte>)
    requires Ready(w) && w.open != [] && w.open[0].remaining.None? && s != [] && ParseElement(s).Some?
    ensures Agrees(w, s)
    decreases |s|, 1
  {
    hide Run, ParseElement, OpenElement, Accepts, CloseExhausted, InsideStep, Less, IsClusterChild, IsSegmentLevel, BeginPayload;
    var e := ParseElement(s).value;
    LessNothingOpen(w.open, e.headerLen);
    HeaderAccepts(w, s);
    InsideOpens(w, s);
    if e.payload.Some? { LessNothingOpen(w.open, e.payload.value); }
    InsideCases(w, e);
    var rest := s[e.headerLen..];
    if e.payload.None? {
      if e.id == CLUSTER {
        WalkerMeetsGrammar(w.(open := [w.open[0], Open(Cluster, None)]), rest);
      }
    } else if |w.open| == 2 && !IsClusterChild(e.id) && !IsSegmentLevel(e.id) {
    } else {
      var n, held := e.payload.value, w.(open := Holding(w.open, e.id));
      assert |w.open| == 2 ==> w.open[..1] == [w.open[0]];
      LessNothingOpen(held.open, n);
      PayloadAccepts(held, n, rest);
      CloseShape(held.open);
      if n <= |rest| {
        assert rest[n..] == After(s);
        WalkerMeetsGrammar(held, After(s));
      }
    }
  }

  lemma {:induction false} AgreesBounded(w: Walk, s: seq<Byte>)
    requires Ready(w) && w.open != [] && w.open[0].remaining.Some? && s != [] && ParseElement(s).Some?
    ensures Agrees(w, s)
    decreases |s|, 1
  {
    hide Run, ParseElement, OpenElement, Accepts, CloseExhausted, InsideStep, IsClusterChild, IsSegmentLevel, BeginPayload, Body, Top;
    var e, r := ParseElement(s).value, w.open[0].remaining.value;
    var h := e.headerLen;
    HeaderAccepts(w, s);
    BodyFront(s, r, |w.open| == 2);
    if h <= r {
      var in_ := w.(open := Less(w.open, h));
      LessShape(w.open, h);
      InsideOpens(in_, s);
      if e.payload.Some? && e.payload.value > r - h {
        Overruns(in_, e);
      } else {
        InsideCases(in_, e);
        var rest := s[h..];
        if e.payload.None? {
          if e.id == CLUSTER {
            AgreesCluster(w, s);
          }
        } else if |w.open| == 2 && !IsClusterChild(e.id) && !IsSegmentLevel(e.id) {
        } else {
          AgreesElement(w, s);
        }
      }
    }
  }

  lemma Overruns(w: Walk, e: Element)
    requires w.open != [] && StackShape(w.open) && e.payload.Some? && !Roomy(w.open, e.payload.value)
    ensures InsideStep(w, e).Stop?
  {
    RoomShape(w.open);
  }

  /** The front of what a segment of known size still holds. */
  lemma BodyFront(s: seq<Byte>, r: nat, inCluster: bool)
    requires 0 < r && ParseElement(s).Some?
    ensures var e := ParseElement(s).value;
            r <= |s| ==>
              (Body(s[..r], true, inCluster) <==>
                 e.headerLen <= r &&
                 if e.payload.None? then e.id == CLUSTER && e.headerLen < r && Body(s[e.headerLen..][..r - e.headerLen], true, true)
                 else
                   var n := e.headerLen + e.payload.value;
                   n <= r && (inCluster ==> IsClusterChild(e.id) || IsSegmentLevel(e.id))
                   && Body(s[n..][..r - n], true, inCluster && IsClusterChild(e.id)))
  {
    hide ParseElement, IsClusterChild, IsSegmentLevel;
    if r <= |s| {
      var e := ParseElement(s).value;
      ParsePrefix(s, r);
      if e.headerLen <= r {
        assert s[..r][e.headerLen..] == s[e.headerLen..][..r - e.headerLen];
        if e.payload.Some? && e.headerLen + e.payload.value <= r {
          var n := e.headerLen + e.payload.value;
          assert s[..r][n..] == s[n..][..r - n];
        }
      }
    }
  }

  /** Where an unknown-size cluster's header leaves a segment of known size. */
  lemma {:induction false} AgreesCluster(w: Walk, s: seq<Byte>)
    requires Ready(w) && w.open != [] && w.open[0].remaining.Some? && ParseElement(s).Some?
    requires var e := ParseElement(s).value; e.payload.None? && e.id == CLUSTER && Roomy(w.open, e.headerLen)
    requires var e := ParseElement(s).value;
             var next := w.(open := [Less(w.open, e.headerLen)[0], Open(Cluster, None)]);
             ValidState(next.state) && (Accepts(w, s) <==> Accepts(next, s[e.headerLen..]))
    ensures Agrees(w, s)
    decreases |s|, 0
  {
    hide Run, ParseElement, Accepts, Body, Top;
    var e, r := ParseElement(s).value, w.open[0].remaining.value;
    var h := e.headerLen;
    var next := w.(open := [Less(w.open, h)[0], Open(Cluster, None)]);
    BodyFront(s, r, |w.open| == 2);
    if h == r {
      StuckRefuses(next, s[h..]);
    } else {
      WalkerMeetsGrammar(next, s[h..]);
      if r <= |s| { assert s[h..][r - h..] == s[r..]; }
    }
  }

  /** Where an element of known size leaves a segment of known size. */
  lemma {:induction false} AgreesElement(w: Walk, s: seq<Byte>)
    requires Ready(w) && w.open != [] && w.open[0].remaining.Some? && ParseElement(s).Some?
    requires var e := ParseElement(s).value;
             && e.payload.Some? && Roomy(w.open, e.headerLen) && Roomy(w.open, e.headerLen + e.payload.value)
             && (|w.open| == 2 ==> IsClusterChild(e.id) || IsSegmentLevel(e.id))
             && var in_ := w.(open := Holding(Less(w.open, e.headerLen), e.id));
                ValidState(BeginPayload(in_, e.payload.value).state)
                && (Accepts(w, s) <==> Accepts(BeginPayload(in_, e.payload.value), s[e.headerLen..]))
    ensures Agrees(w, s)
    decreases |s|, 0
  {
    hide Run, ParseElement, Accepts, Body, Top, CloseExhausted, BeginPayload, IsClusterChild, IsSegmentLevel;
    var e, r := ParseElement(s).value, w.open[0].remaining.value;
    var h, n := e.headerLen, e.payload.value;
    var rest, inside := s[h..], w.(open := Holding(Less(w.open, h), e.id));
    HoldingLess(w.open, h, n, e.id);
    PayloadAccepts(inside, n, rest);
    CloseShape(Less(inside.open, n));
    BodyFront(s, r, |w.open| == 2);
    if n <= |rest| {
      var next := w.(open := CloseExhausted(Less(inside.open, n)));
      assert rest[n..] == s[h + n..];
      WalkerMeetsGrammar(next, s[h + n..]);
      if r <= |s| { assert s[h + n..][r - h - n..] == s[r..]; }
      if r == h + n { AllHeld(s[h + n..], |w.open| == 2 && IsClusterChild(e.id)); }
    }
  }

  lemma AllHeld(s: seq<Byte>, inCluster: bool)
    ensures Body(s[..0], true, inCluster) && s[0..] == s
  {
  }

  lemma HoldingLess(open: seq<Open>, h: nat, n: nat, id: nat)
    requires StackShape(open) && open != [] && open[0].remaining.Some? && Roomy(open, h + n)
    ensures Roomy(open, h)
    ensures var held := Holding(Less(open, h), id);
            && StackShape(held) && Roomy(held, n) && StackShape(Less(held, n))
            && Less(held, n) != [] && Less(held, n)[0].remaining == Some(open[0].remaining.value - h - n)
            && (|Less(held, n)| == 2 <==> |open| == 2 && IsClusterChild(id))
  {
    hide IsClusterChild;
  }

  /** The walker accepts a stream exactly when it is a Matroska stream. */
  lemma AcceptsExactlyStreams(s: seq<Byte>)
    ensures Accepts(START, s) <==> Stream(s)
  {
    hide Run, ParseElement, Accepts, OpenElement, CloseExhausted, Top, BeginPayload;
    if s == [] {
      StartRefuses();
      NoElement();
    } else if ParseElement(s).None? {
      NoHeaderRefused(START, s);
    } else {
      var e := ParseElement(s).value;
      LessNothingOpen([], e.headerLen);
      HeaderAccepts(START, s);
      HeaderOpens(s);
      if e.id == EBML_HEADER && e.payload.Some? {
        var n, rest := e.payload.value, s[e.headerLen..];
        var next := START.(seenHeader := true);
        LessNothingOpen([], n);
        PayloadAccepts(next, n, rest);
        CloseShape([]);
        if n <= |rest| {
          assert rest[n..] == After(s);
          WalkerMeetsGrammar(next, After(s));
        }
      }
    }
  }

  lemma StartRefuses()
    ensures !Accepts(START, [])
  {
  }

  lemma NoElement()
    ensures ParseElement([]).None?
  {
  }

  lemma HeaderOpens(s: seq<Byte>)
    requires ParseElement(s).Some?
    ensures var e, step := ParseElement(s).value, OpenElement(START, HeaderId(s), HeaderSize(s));
            if e.id == EBML_HEADER && e.payload.Some?
            then step == Go(BeginPayload(START.(seenHeader := true), e.payload.value), None) else step.Stop?
  {
    hide ParseElement, Number, SizeValue, BeginPayload;
    HeaderSplits(s);
  }
}
