/** What the framed-audio walker accepts, as a grammar, and the headers it reads, as they are printed. */
module FramedAudioGrammar {
  import opened Bytes
  import opened AudioFrames
  import opened FramedAudio
  import opened Gear
  import H = IsobmffHeaders

  // The grammar: a stream is a list of units, and every unit says how long it is.

  /** Four seven-bit digits as one number. */
  function Septets(a: nat, b: nat, c: nat, d: nat): nat {
    a * 2097152 + b * 16384 + c * 128 + d
  }

  /** The length of the tag that begins here: ten bytes, four times seven bits, and ten more for a footer. */
  function TagLen(s: seq<Byte>): Option<nat> {
    if |s| < 10 || s[..3] != Ascii("ID3") || s[6] >= 128 || s[7] >= 128 || s[8] >= 128 || s[9] >= 128 then None
    else Some(10 + Septets(s[6], s[7], s[8], s[9]) + if s[5] % 32 >= 16 then 10 else 0)
  }

  /** The length of the frame that begins here: both layer bits zero make the first frame an ADTS one. */
  function FrameHere(s: seq<Byte>, family: Option<Family>): Option<nat> {
    if |s| < 4 || s[0] != 255 || s[1] < 224 then None
    else
      var adts := if family.None? then s[1] % 8 < 2 else family == Some(Adts);
      if adts && |s| < 7 then None
      else
        match if adts then AdtsFrameLen(s[..7]) else MpegFrameLen(s[..4])
        case Bad(_) => None
        case Len(n) => Some(n)
  }

  function FamilyHere(b: Byte, family: Option<Family>): Family {
    match family
    case Some(f) => f
    case None => if b % 8 < 2 then Adts else Mp3
  }

  /** Tags and frames up to the end or a closing tag, or FLAC; a stream without a frame is not accepted. */
  predicate Units(s: seq<Byte>, family: Option<Family>, seen: bool) {
    if s == [] then seen
    else if s[0] == 'I' as int then
      TagLen(s).Some? && TagLen(s).value <= |s| && Units(s[TagLen(s).value..], family, seen)
    else if s[0] == 255 then
      var n := FrameHere(s, family);
      n.Some? && 0 < n.value <= |s| && Units(s[n.value..], Some(FamilyHere(s[1], family)), true)
    else if s[0] == 'T' as int then
      (family == Some(Mp3) || family == Some(Adts)) && |s| == 128 && s[..3] == Ascii("TAG")
    else
      family.None? && |s| >= 4 && s[..4] == Ascii("fLaC") && Blocks(s[4..], !seen)
  }

  /** FLAC metadata blocks up to the one that says it is the last; whatever follows it is audio. */
  predicate Blocks(s: seq<Byte>, first: bool) {
    |s| >= 4 &&
    match FlacBlock(s[..4], first)
    case BadBlock => false
    case Block(last, n) => 4 + n <= |s| && (last || Blocks(s[4 + n..], false))
  }

  // What the walker still wants, in each of its states.

  /** What the walker has collected is what it takes for the start of a unit. */
  predicate Collected(w: Walk) {
    match w.state
    case Sniff(got) =>
      got == [] || got == [255] || (got[0] == 73 && |got| < 3) || (got[0] == 102 && |got| < 4 && w.family.None?)
    case Id3Header(tag) => 3 <= |tag| < 10 && tag[0] == 73
    case FrameHeader(h) => 2 <= |h| < HeaderNeeded(w) && h[0] == 255 && h[1] >= 224 && w.family.Some?
    case Trailer(len) => 1 <= len < 128
    case FlacMetaHeader(meta) => |meta| < 4
    case _ => true
  }

  predicate Wants(w: Walk, s: seq<Byte>) {
    match w.state
    case Sniff(got) => Units(got + s, w.family, w.seenFrame)
    case Id3Header(tag) => Units(tag + s, w.family, w.seenFrame)
    case FrameHeader(h) => Units(h + s, w.family, w.seenFrame)
    case FramePayload(n) => n <= |s| && Units(s[n..], w.family, w.seenFrame)
    case Trailer(len) =>
      |s| + len == 128 && forall i :: 0 <= i < |s| && i + len < 3 ==> s[i] == Ascii("TAG")[i + len]
    case Complete => s == []
    case FlacMetaHeader(meta) => Blocks(meta + s, !w.seenFrame)
    case Opaque(n, andThen) =>
      n <= |s| &&
      (match andThen
       case AtBoundary => Units(s[n..], w.family, w.seenFrame)
       case AtFlacMeta => Blocks(s[n..], !w.seenFrame)
       case AtFlacAudio => true)
    case FlacAudio => true
  }

  lemma WantsNothing(w: Walk)
    requires ValidWalk(w) && Collected(w)
    ensures Wants(w, []) <==> MayFinish(w)
  {
    hide FlacBlock, AdtsFrameLen, MpegFrameLen;
    match w.state {
      case Sniff(got) => assert got + [] == got;
      case Id3Header(tag) => assert tag + [] == tag;
      case FrameHeader(h) => assert h + [] == h;
      case FlacMetaHeader(meta) => assert meta + [] == meta;
      case _ =>
    }
  }

  /** One byte: the walker refuses it, or wants of what follows what it wanted of both. */
  lemma WantsNext(w: Walk, b: Byte, s: seq<Byte>)
    requires ValidWalk(w) && Collected(w)
    ensures var step := Consume(w, b);
            if step.Stop? then !Wants(w, [b] + s) else Collected(step.next) && Wants(w, [b] + s) == Wants(step.next, s)
  {
    hide FlacBlock, AdtsFrameLen, MpegFrameLen, Id3BodyLen, Units, Blocks, SniffByte, TagByte, FrameByte, MetaByte, Ascii;
    var rest := w.(state := Complete);
    match w.state {
      case Sniff(got) =>
        assert got + ([b] + s) == (got + [b]) + s;
        SniffWants(w, got, b, s);
      case Id3Header(tag) =>
        assert tag + ([b] + s) == (tag + [b]) + s;
        TagWants(rest, tag + [b], s);
      case FrameHeader(h) =>
        assert h + ([b] + s) == (h + [b]) + s;
        FrameWants(rest, h + [b], s);
      case Trailer(len) =>
        TrailerWants(w, len, b, s);
      case FlacMetaHeader(meta) =>
        assert meta + ([b] + s) == (meta + [b]) + s;
        MetaWants(rest, meta + [b], s);
      case FramePayload(n) =>
        PayloadWants(w, n, b, s);
      case Opaque(n, andThen) =>
        OpaqueWants(w, n, andThen, b, s);
      case _ =>
    }
  }

  /** A byte that is only counted. */
  lemma PayloadWants(w: Walk, n: Pos, b: Byte, s: seq<Byte>)
    requires w.state == FramePayload(n)
    ensures Consume(w, b).Go? && Collected(Consume(w, b).next) && Wants(w, [b] + s) == Wants(Consume(w, b).next, s)
  {
    hide Units, Blocks, HeaderNeeded;
    Dropped(b, s, n);
    assert s[0..] == s;
    EmptyFirst(s);
  }

  lemma OpaqueWants(w: Walk, n: Pos, andThen: After, b: Byte, s: seq<Byte>)
    requires w.state == Opaque(n, andThen)
    ensures Consume(w, b).Go? && Collected(Consume(w, b).next) && Wants(w, [b] + s) == Wants(Consume(w, b).next, s)
  {
    hide Units, Blocks, HeaderNeeded;
    Dropped(b, s, n);
    assert s[0..] == s;
    EmptyFirst(s);
  }

  lemma Dropped(b: Byte, s: seq<Byte>, n: Pos)
    ensures n <= |s| + 1 ==> ([b] + s)[n..] == s[n - 1..]
  {
  }

  /** The first frame's second byte fixes the family of the whole stream. */
  lemma Locks(u: seq<Byte>, family: Option<Family>, seen: bool)
    requires |u| >= 2 && u[0] == 255
    ensures u[1] < 224 ==> FrameHere(u, family) == None && !Units(u, family, seen)
    ensures Units(u, family, seen) == Units(u, Some(FamilyHere(u[1], family)), seen)
  {
    hide AdtsFrameLen, MpegFrameLen, TagLen, Blocks;
    var f := Some(FamilyHere(u[1], family));
    assert FrameHere(u, f) == FrameHere(u, family);
  }

  lemma FlacUnits(u: seq<Byte>, family: Option<Family>, seen: bool)
    requires u != [] && u[0] == 'f' as int
    ensures Units(u, family, seen) <==> family.None? && 4 <= |u| && u[..4] == Ascii("fLaC") && Blocks(u[4..], !seen)
  {
    hide TagLen, FrameHere, FamilyHere, Blocks, Ascii;
  }

  lemma TrailerUnits(u: seq<Byte>, family: Option<Family>, seen: bool)
    requires u != [] && u[0] == 'T' as int
    ensures Units(u, family, seen) <==> (family == Some(Mp3) || family == Some(Adts)) && |u| == 128 && u[..3] == Ascii("TAG")
  {
    hide TagLen, FrameHere, FamilyHere, Blocks, Ascii;
  }

  lemma OtherUnits(u: seq<Byte>, family: Option<Family>, seen: bool)
    requires u != [] && u[0] !in [255, 73, 84, 102]
    ensures !Units(u, family, seen)
  {
    hide TagLen, FrameHere, FamilyHere, Blocks, Ascii;
    MagicIs();
    assert 4 <= |u| ==> u[..4][0] == u[0];
  }

  lemma TrailerBegins(w: Walk, b: Byte, s: seq<Byte>)
    requires w.state == Sniff([]) && b == 84
    ensures var step := Consume(w, b);
            if step.Stop? then !Units([b] + s, w.family, w.seenFrame)
            else Collected(step.next) && Units([b] + s, w.family, w.seenFrame) == Wants(step.next, s)
  {
    hide Units, Blocks, Ascii;
    var u := [b] + s;
    assert [] + [b] == [b];
    TrailerUnits(u, w.family, w.seenFrame);
    assert u[1..] == s;
    TagIs(u);
  }

  lemma SniffWants(w: Walk, got: seq<Byte>, b: Byte, s: seq<Byte>)
    requires ValidWalk(w) && Collected(w) && w.state == Sniff(got)
    ensures var step := Consume(w, b);
            if step.Stop? then !Units(got + [b] + s, w.family, w.seenFrame)
            else Collected(step.next) && Units(got + [b] + s, w.family, w.seenFrame) == Wants(step.next, s)
  {
    hide FrameHere, TagLen, TagByte, FrameByte, MetaByte, Units, Blocks;
    var all, u := got + [b], got + [b] + s;
    assert u[..|all|] == all && u[0] == all[0];
    assert Consume(w, b) == SniffByte(w.(state := Complete), all);
    match all[0] {
      case 255 =>
        if |all| == 2 {
          assert u[1] == b;
          Locks(u, w.family, w.seenFrame);
        }
      case 73 =>
      case 84 =>
        assert got == [] && u == [b] + s;
        TrailerBegins(w, b, s);
      case 102 =>
        FlacUnits(u, w.family, w.seenFrame);
        MagicIs();
        if |all| == 4 {
          assert u[..4] == all && u[4..] == s;
          EmptyFirst(s);
        }
      case _ =>
        OtherUnits(u, w.family, w.seenFrame);
    }
  }

  lemma MagicIs()
    ensures Ascii("fLaC") == FLAC_MAGIC && Ascii("ID3") == [73, 68, 51] && Ascii("TAG") == TRAILER_TAG
  {
    var flac, id3, tag := "fLaC", "ID3", "TAG";
    assert flac[0] == 'f' && flac[1] == 'L' && flac[2] == 'a' && flac[3] == 'C';
    assert id3[0] == 'I' && id3[1] == 'D' && id3[2] == '3';
    assert tag[0] == 'T' && tag[1] == 'A' && tag[2] == 'G';
  }

  lemma TagIs(u: seq<Byte>)
    requires u != [] && u[0] == 84
    ensures |u| == 128 ==> (u[..3] == Ascii("TAG") <==> forall i :: 0 <= i < |u[1..]| && i + 1 < 3 ==> u[1..][i] == Ascii("TAG")[i + 1])
  {
    MagicIs();
    if |u| == 128 {
      assert u[1..][0] == u[1] && u[1..][1] == u[2];
    }
  }

  lemma TrailerWants(w: Walk, len: nat, b: Byte, s: seq<Byte>)
    requires w.state == Trailer(len) && 1 <= len < 128
    ensures var step := Consume(w, b);
            if step.Stop? then !Wants(w, [b] + s) else Collected(step.next) && Wants(w, [b] + s) == Wants(step.next, s)
  {
    hide Units, Blocks, SniffByte, TagByte, FrameByte, MetaByte, HeaderNeeded;
    MagicIs();
    var u := [b] + s;
    assert u[0] == b && forall i :: 0 <= i < |s| ==> u[i + 1] == s[i];
    match Consume(w, b) {
      case Stop(_) =>
      case Go(next) =>
        if Wants(next, s) {
          forall i | 0 <= i < |u| && i + len < 3 ensures u[i] == Ascii("TAG")[i + len] {
            if i > 0 {
              assert s[i - 1] == Ascii("TAG")[i - 1 + (len + 1)];
            }
          }
        }
        if Wants(w, u) && next.state.Trailer? {
          forall i | 0 <= i < |s| && i + (len + 1) < 3 ensures s[i] == Ascii("TAG")[i + (len + 1)] {
            assert u[i + 1] == Ascii("TAG")[i + 1 + len];
          }
        }
    }
  }

  lemma SyncsafeIs(h: seq<Byte>)
    requires |h| == 4
    ensures Syncsafe(h) == if h[0] >= 128 || h[1] >= 128 || h[2] >= 128 || h[3] >= 128 then None
                           else Some(Septets(h[0], h[1], h[2], h[3]))
  {
    assert h[..3][..2] == h[..2] && h[..2][..1] == h[..1] && h[..1][..0] == [];
    assert Syncsafe(h[..1]) == if h[0] >= 128 then None else Some(h[0] as nat);
    assert Syncsafe(h[..2]) == if h[0] >= 128 || h[1] >= 128 then None else Some(Septets(0, 0, h[0], h[1]));
    assert Syncsafe(h[..3]) == if h[0] >= 128 || h[1] >= 128 || h[2] >= 128 then None else Some(Septets(0, h[0], h[1], h[2]));
  }

  /** A tag's length, as the walker reads it. */
  lemma TagReads(tag: seq<Byte>, s: seq<Byte>)
    requires |tag| == 10
    ensures TagLen(tag + s) == match Id3BodyLen(tag) case Bad(_) => None case Len(n) => Some(10 + n)
  {
    hide Syncsafe;
    var u := tag + s;
    MagicIs();
    SyncsafeIs(tag[6..10]);
    assert u[..3] == tag[..3];
  }

  lemma TagWants(w: Walk, tag: seq<Byte>, s: seq<Byte>)
    requires 3 < |tag| <= 10 && tag[0] == 73
    ensures var step := TagByte(w, tag);
            if step.Stop? then !Units(tag + s, w.family, w.seenFrame) else Collected(step.next) && Units(tag + s, w.family, w.seenFrame) == Wants(step.next, s)
  {
    hide FlacBlock, AdtsFrameLen, MpegFrameLen, Id3BodyLen, TagLen, Blocks, FrameHere, FamilyHere, Ascii, HeaderNeeded;
    var u := tag + s;
    if |tag| == 10 {
      TagReads(tag, s);
      if Id3BodyLen(tag).Len? {
        var n := Id3BodyLen(tag).bytes;
        assert n <= |s| ==> u[10 + n..] == s[n..];
        assert s[0..] == s && [] + s == s;
        EmptyFirst(s);
      }
    }
  }

  lemma EmptyFirst(s: seq<Byte>)
    ensures [] + s == s
  {
  }

  lemma FrameReads(w: Walk, h: seq<Byte>, s: seq<Byte>)
    requires |h| == HeaderNeeded(w) && h[0] == 255 && h[1] >= 224 && w.family.Some?
    ensures FrameHere(h + s, w.family) == match FrameLen(w, h) case Bad(_) => None case Len(n) => Some(n)
    ensures (h + s)[0] == 255 && FamilyHere((h + s)[1], w.family) == w.family.value
  {
    hide AdtsFrameLen, MpegFrameLen;
    assert (h + s)[..|h|] == h;
  }

  lemma FrameUnits(u: seq<Byte>, family: Option<Family>, seen: bool)
    requires 2 <= |u| && u[0] == 255
    ensures Units(u, family, seen) ==
            var n := FrameHere(u, family);
            n.Some? && 0 < n.value <= |u| && Units(u[n.value..], Some(FamilyHere(u[1], family)), true)
  {
    hide FrameHere, FamilyHere, TagLen, Blocks, Ascii;
  }

  lemma FrameWants(w: Walk, h: seq<Byte>, s: seq<Byte>)
    requires 2 < |h| <= HeaderNeeded(w) && h[0] == 255 && h[1] >= 224 && w.family.Some?
    ensures var step := FrameByte(w, h);
            if step.Stop? then !Units(h + s, w.family, w.seenFrame)
            else Collected(step.next) && Units(h + s, w.family, w.seenFrame) == Wants(step.next, s)
  {
    hide FrameLen, Units, Blocks, FrameHere, FamilyHere;
    var u := h + s;
    if |h| == HeaderNeeded(w) {
      FrameReads(w, h, s);
      FrameUnits(u, w.family, w.seenFrame);
      match FrameLen(w, h) {
        case Bad(_) =>
        case Len(n) =>
          FrameBounds(w, h);
          assert n <= |u| ==> u[n..] == s[n - |h|..];
          assert s[0..] == s;
          EmptyFirst(s);
      }
    }
  }

  lemma MetaWants(w: Walk, meta: seq<Byte>, s: seq<Byte>)
    requires 0 < |meta| <= 4
    ensures var step := MetaByte(w, meta);
            if step.Stop? then !Blocks(meta + s, !w.seenFrame) else Collected(step.next) && Blocks(meta + s, !w.seenFrame) == Wants(step.next, s)
  {
    hide FlacBlock, AdtsFrameLen, MpegFrameLen, Units;
    var u := meta + s;
    if |meta| == 4 {
      assert u[..4] == meta;
      match FlacBlock(meta, !w.seenFrame) {
        case BadBlock =>
        case Block(last, n) =>
          assert n <= |s| ==> u[4 + n..] == s[n..];
          assert s[0..] == s;
          EmptyFirst(s);
      }
    }
  }

  lemma {:induction false} RunFirst(w: Walk, b: Byte, s: seq<Byte>)
    requires ValidWalk(w)
    ensures Run(w, [b] + s) == match Consume(w, b) case Stop(_) => None case Go(next) => Run(next, s)
  {
    hide Consume;
    if s == [] {
      assert ([b] + s)[..0] == [] && [b] + s == [b];
    } else {
      assert ([b] + s)[..|s|] == [b] + s[..|s| - 1];
      RunFirst(w, b, s[..|s| - 1]);
    }
  }

  /** From every state the walker gets through exactly what it wants there. */
  lemma {:induction false} WalkerMeetsGrammar(w: Walk, s: seq<Byte>)
    requires ValidWalk(w) && Collected(w)
    ensures Wants(w, s) <==> Run(w, s).Some? && MayFinish(Run(w, s).value)
    decreases |s|
  {
    hide Wants, Consume;
    if s == [] {
      WantsNothing(w);
    } else {
      assert s == [s[0]] + s[1..];
      RunFirst(w, s[0], s[1..]);
      WantsNext(w, s[0], s[1..]);
      if Consume(w, s[0]).Go? {
        WalkerMeetsGrammar(Consume(w, s[0]).next, s[1..]);
      }
    }
  }

  /** A stream is chunked to its end without a fault if and only if the grammar derives it. */
  lemma AcceptsExactly(t: Table, s: seq<Byte>)
    ensures Units(s, None, false) <==> FeedAll(t, FRESH, s).Fed? && MayFinish(FeedAll(t, FRESH, s).next.walk)
  {
    hide Consume, Units, Feed;
    WalkerMeetsGrammar(START, s);
    WalkIsRun(t, s);
    EmptyFirst(s);
  }

  // Where units start.

  /** A unit, or the end, is `k` bytes on from the start of one. */
  predicate UnitAt(s: seq<Byte>, family: Option<Family>, first: bool, k: nat) {
    k == 0 ||
    (s != [] &&
     if s[0] == 'I' as int then
       TagLen(s).Some? && TagLen(s).value <= |s| && TagLen(s).value <= k && UnitAt(s[TagLen(s).value..], family, first, k - TagLen(s).value)
     else if s[0] == 255 then
       var n := FrameHere(s, family);
       n.Some? && 0 < n.value <= |s| && n.value <= k && UnitAt(s[n.value..], Some(FamilyHere(s[1], family)), false, k - n.value)
     else
       s[0] == 'f' as int && 4 <= |s| && 4 <= k && BlockAt(s[4..], first, k - 4))
  }

  /** A metadata block is `k` bytes on from the start of one. */
  predicate BlockAt(s: seq<Byte>, first: bool, k: nat) {
    k == 0 ||
    (4 <= |s| &&
     match FlacBlock(s[..4], first)
     case BadBlock => false
     case Block(last, n) => !last && 4 + n <= |s| && 4 + n <= k && BlockAt(s[4 + n..], false, k - 4 - n))
  }

  /** The walker is at a unit's start `k` bytes on from where it is. */
  predicate SeamAfter(w: Walk, s: seq<Byte>, k: nat) {
    match w.state
    case Sniff(got) => UnitAt(got + s, w.family, !w.seenFrame, |got| + k)
    case Id3Header(tag) => UnitAt(tag + s, w.family, !w.seenFrame, |tag| + k)
    case FrameHeader(h) => UnitAt(h + s, w.family, !w.seenFrame, |h| + k)
    case FramePayload(n) => n <= |s| && n <= k && UnitAt(s[n..], w.family, !w.seenFrame, k - n)
    case Trailer(_) => false
    case Complete => false
    case FlacMetaHeader(meta) => BlockAt(meta + s, !w.seenFrame, |meta| + k)
    case Opaque(n, andThen) =>
      n <= |s| && n <= k &&
      (match andThen
       case AtBoundary => UnitAt(s[n..], w.family, !w.seenFrame, k - n)
       case AtFlacMeta => BlockAt(s[n..], !w.seenFrame, k - n)
       case AtFlacAudio => false)
    case FlacAudio => false
  }

  /** A frame is longer than what has been collected of its header. */
  lemma FrameHereLong(s: seq<Byte>, family: Option<Family>)
    requires FrameHere(s, family).Some?
    ensures FrameHere(s, family).value >= if family == Some(Adts) then 7 else 4
  {
    hide AdtsFrameLen, MpegFrameLen;
    if 7 <= |s| && AdtsFrameLen(s[..7]).Len? {
      AdtsFrameBounds(s[..7]);
    }
    if MpegFrameLen(s[..4]).Len? {
      MpegFrameBounds(s[..4]);
    }
  }

  lemma SeamNow(w: Walk, s: seq<Byte>)
    requires ValidWalk(w) && Collected(w)
    ensures AtSeam(w) <==> SeamAfter(w, s, 0)
  {
    hide AdtsFrameLen, MpegFrameLen, FlacBlock, FrameHere, TagLen;
    match w.state {
      case Sniff(got) =>
        if got != [] {
          assert (got + s)[0] == got[0];
          Short(got + s, w.family);
        }
      case Id3Header(tag) =>
        assert (tag + s)[0] == tag[0];
        Short(tag + s, w.family);
      case FrameHeader(h) =>
        assert (h + s)[0] == h[0];
        Short(h + s, w.family);
      case _ =>
    }
  }

  lemma Short(u: seq<Byte>, family: Option<Family>)
    ensures TagLen(u).Some? ==> 10 <= TagLen(u).value
    ensures FrameHere(u, family).Some? ==> FrameHere(u, family).value >= if family == Some(Adts) then 7 else 4
  {
    hide FrameHere, Septets, Ascii;
    if FrameHere(u, family).Some? {
      FrameHereLong(u, family);
    }
  }

  lemma LocksAt(u: seq<Byte>, family: Option<Family>, first: bool, k: nat)
    requires |u| >= 2 && u[0] == 255
    ensures UnitAt(u, family, first, k) == UnitAt(u, Some(FamilyHere(u[1], family)), first, k)
  {
    hide AdtsFrameLen, MpegFrameLen, TagLen, BlockAt;
    var f := Some(FamilyHere(u[1], family));
    assert FrameHere(u, f) == FrameHere(u, family);
  }

  lemma FrameAt(u: seq<Byte>, family: Option<Family>, first: bool, k: Pos)
    requires 2 <= |u| && u[0] == 255
    ensures UnitAt(u, family, first, k) ==
            var n := FrameHere(u, family);
            n.Some? && 0 < n.value <= |u| && n.value <= k && UnitAt(u[n.value..], Some(FamilyHere(u[1], family)), false, k - n.value)
  {
    hide FrameHere, FamilyHere, TagLen, BlockAt;
  }

  lemma FlacAt(u: seq<Byte>, family: Option<Family>, first: bool, k: Pos)
    requires u != [] && u[0] == 'f' as int
    ensures UnitAt(u, family, first, k) <==> 4 <= |u| && 4 <= k && BlockAt(u[4..], first, k - 4)
  {
    hide FrameHere, FamilyHere, TagLen, BlockAt;
  }

  lemma NoUnitAt(u: seq<Byte>, family: Option<Family>, first: bool, k: Pos)
    requires u != [] && u[0] == 'T' as int
    ensures !UnitAt(u, family, first, k)
  {
    hide FrameHere, FamilyHere, TagLen, BlockAt;
  }

  lemma SniffSeam(w: Walk, got: seq<Byte>, b: Byte, s: seq<Byte>, k: Pos)
    requires ValidWalk(w) && Collected(w) && w.state == Sniff(got) && Consume(w, b).Go?
    ensures UnitAt(got + [b] + s, w.family, !w.seenFrame, |got| + k) == SeamAfter(Consume(w, b).next, s, k - 1)
  {
    hide FrameHere, TagLen, TagByte, FrameByte, MetaByte, UnitAt, BlockAt;
    var all, u := got + [b], got + [b] + s;
    assert u[..|all|] == all && u[0] == all[0];
    assert Consume(w, b) == SniffByte(w.(state := Complete), all);
    match all[0] {
      case 255 =>
        if |all| == 2 {
          assert u[1] == b;
          LocksAt(u, w.family, !w.seenFrame, |got| + k);
        }
      case 73 =>
      case 84 =>
        NoUnitAt(u, w.family, !w.seenFrame, |got| + k);
      case 102 =>
        if |all| == 4 {
          FlacAt(u, w.family, !w.seenFrame, |got| + k);
          assert u[4..] == s;
          EmptyFirst(s);
        }
      case _ =>
    }
  }

  lemma TagSeam(w: Walk, tag: seq<Byte>, s: seq<Byte>, k: Pos)
    requires 3 < |tag| <= 10 && tag[0] == 73 && TagByte(w, tag).Go?
    ensures UnitAt(tag + s, w.family, !w.seenFrame, |tag| - 1 + k) == SeamAfter(TagByte(w, tag).next, s, k - 1)
  {
    hide FlacBlock, AdtsFrameLen, MpegFrameLen, Id3BodyLen, TagLen, FrameHere, FamilyHere, BlockAt;
    var u := tag + s;
    if |tag| == 10 {
      TagReads(tag, s);
      var n := Id3BodyLen(tag).bytes;
      assert n <= |s| ==> u[10 + n..] == s[n..];
      assert s[0..] == s;
      EmptyFirst(s);
    }
  }

  lemma FrameSeam(w: Walk, h: seq<Byte>, s: seq<Byte>, k: Pos)
    requires 2 < |h| <= HeaderNeeded(w) && h[0] == 255 && h[1] >= 224 && w.family.Some? && FrameByte(w, h).Go?
    ensures UnitAt(h + s, w.family, !w.seenFrame, |h| - 1 + k) == SeamAfter(FrameByte(w, h).next, s, k - 1)
  {
    hide FlacBlock, FrameLen, TagLen, FrameHere, FamilyHere, HeaderNeeded, BlockAt, UnitAt;
    var u := h + s;
    if |h| == HeaderNeeded(w) {
      FrameReads(w, h, s);
      FrameBounds(w, h);
      FrameAt(u, w.family, !w.seenFrame, |h| - 1 + k);
      var n := FrameLen(w, h).bytes;
      assert n <= |u| ==> u[n..] == s[n - |h|..];
      assert s[0..] == s;
      EmptyFirst(s);
    }
  }

  lemma BlockStep(u: seq<Byte>, first: bool, k: Pos)
    requires 4 <= |u|
    ensures BlockAt(u, first, k) ==
            var block := FlacBlock(u[..4], first);
            block.Block? && !block.last && 4 + block.length <= |u| && 4 + block.length <= k && BlockAt(u[4 + block.length..], false, k - 4 - block.length)
  {
    hide FlacBlock;
  }

  lemma MetaSeam(w: Walk, meta: seq<Byte>, s: seq<Byte>, k: Pos)
    requires 0 < |meta| <= 4 && MetaByte(w, meta).Go?
    ensures BlockAt(meta + s, !w.seenFrame, |meta| - 1 + k) == SeamAfter(MetaByte(w, meta).next, s, k - 1)
  {
    hide FlacBlock, UnitAt, BlockAt;
    var u := meta + s;
    if |meta| == 4 {
      assert u[..4] == meta;
      BlockStep(u, !w.seenFrame, 3 + k);
      var n := FlacBlock(meta, !w.seenFrame).length;
      assert n <= |s| ==> u[4 + n..] == s[n..];
      assert s[0..] == s;
      EmptyFirst(s);
    }
  }

  lemma NeedsSame(w: Walk, x: Walk)
    requires w.family == x.family
    ensures HeaderNeeded(w) == HeaderNeeded(x)
  {
  }

  lemma SeamNext(w: Walk, b: Byte, s: seq<Byte>, k: Pos)
    requires ValidWalk(w) && Collected(w) && Consume(w, b).Go?
    ensures SeamAfter(w, [b] + s, k) == SeamAfter(Consume(w, b).next, s, k - 1)
  {
    hide UnitAt, BlockAt, SniffByte, TagByte, FrameByte, MetaByte, HeaderNeeded;
    var rest := w.(state := Complete);
    NeedsSame(w, rest);
    match w.state {
      case Sniff(got) =>
        assert got + ([b] + s) == (got + [b]) + s;
        SniffSeam(w, got, b, s, k);
      case Id3Header(tag) =>
        assert tag + ([b] + s) == (tag + [b]) + s;
        TagSeam(rest, tag + [b], s, k);
      case FrameHeader(h) =>
        assert h + ([b] + s) == (h + [b]) + s;
        FrameSeam(rest, h + [b], s, k);
      case FlacMetaHeader(meta) =>
        assert meta + ([b] + s) == (meta + [b]) + s;
        MetaSeam(rest, meta + [b], s, k);
      case FramePayload(n) =>
        PayloadSeam(w, n, b, s, k);
      case Opaque(n, andThen) =>
        OpaqueSeam(w, n, andThen, b, s, k);
      case _ =>
    }
  }

  lemma PayloadSeam(w: Walk, n: Pos, b: Byte, s: seq<Byte>, k: Pos)
    requires w.state == FramePayload(n)
    ensures SeamAfter(w, [b] + s, k) == SeamAfter(Consume(w, b).next, s, k - 1)
  {
    hide UnitAt, BlockAt, HeaderNeeded;
    Dropped(b, s, n);
    assert s[0..] == s;
    EmptyFirst(s);
  }

  lemma OpaqueSeam(w: Walk, n: Pos, andThen: After, b: Byte, s: seq<Byte>, k: Pos)
    requires w.state == Opaque(n, andThen)
    ensures SeamAfter(w, [b] + s, k) == SeamAfter(Consume(w, b).next, s, k - 1)
  {
    hide UnitAt, BlockAt, HeaderNeeded;
    Dropped(b, s, n);
    assert s[0..] == s;
    EmptyFirst(s);
  }

  lemma {:induction false} SeamsFollow(w: Walk, s: seq<Byte>, k: nat)
    requires ValidWalk(w) && Collected(w) && k <= |s| && Run(w, s[..k]).Some?
    ensures AtSeam(Run(w, s[..k]).value) <==> SeamAfter(w, s, k)
    decreases k
  {
    hide Consume, SeamAfter, AtSeam;
    if k == 0 {
      assert s[..0] == [];
      SeamNow(w, s);
    } else {
      var b, rest := s[0], s[1..];
      assert s == [b] + rest && s[..k] == [b] + rest[..k - 1];
      RunFirst(w, b, rest[..k - 1]);
      WantsNext(w, b, rest);
      SeamNext(w, b, rest, k);
      SeamsFollow(Consume(w, b).next, rest, k - 1);
    }
  }

  /** As far as a stream is accepted, a cut between units is judged at exactly the starts of units, and at the end of the last. */
  lemma SeamsAreUnitStarts(s: seq<Byte>, k: nat)
    requires k <= |s| && Run(START, s[..k]).Some?
    ensures AtSeam(Run(START, s[..k]).value) <==> UnitAt(s, None, true, k)
  {
    hide Consume, UnitAt, AtSeam;
    SeamsFollow(START, s, k);
    EmptyFirst(s);
  }

  /** What may stand at a boundary, and how what may not is told: no audio at all, or a lost sync. */
  lemma BoundaryFaults(w: Walk, b: Byte)
    requires w.state == Sniff([])
    ensures var known := b == 255 || b == 'I' as int
                         || (b == 'T' as int && (w.family == Some(Mp3) || w.family == Some(Adts))) || (b == 'f' as int && w.family.None?);
            Consume(w, b).Stop? == !known
    ensures Consume(w, b).Stop? ==> Consume(w, b).fault == if w.family.None? then NotFramedAudio else BadFrameSync
  {
    assert [] + [b] == [b];
  }
}
