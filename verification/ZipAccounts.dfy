/** What the ZIP reader tells of an archive, said from the members a walk reports (src/decompose/zip.rs): which archives it reads out, and as what. */
module ZipAccounts {
  import opened Bytes
  import opened DecomposeSink
  import opened DecomposeReading
  import opened DecomposeReaders
  import Z = ZipWalker
  import E = ZipEvents
  import S = ZipScan
  import R = ZipRecords
  import O = OoxmlCore
  import C = OoxmlCanon
  import ZR = ZipRoundTrip

  // What a member is told as.

  /** A name that ends in a slash is a directory's. */
  predicate IsDirectory(name: seq<Byte>) {
    name != [] && name[|name| - 1] == '/' as int
  }

  /** A directory claims no bytes; anything else is stored or deflated, and decodes to as many bytes as its end says. Nothing is encrypted. */
  predicate Readable(lib: O.Library, m: E.Source) {
    !m.head.encrypted &&
    if IsDirectory(m.head.name) then m.head.sizes.None? || m.head.sizes.value.uncompressed == 0
    else
      (m.head.codec == 0 || m.head.codec == 8) &&
      match C.Decode(lib, m.head.codec, m.raw)
      case Bad(_) => false
      case Made(bytes) => |bytes| == m.ended.uncompressed
  }

  function MetaOf(head: Z.Event, i: nat): Meta
    requires head.LocalHeaderRead?
  {
    Meta(head.name, i, if head.sizes.Some? then Some(head.sizes.value.uncompressed) else None, None, None)
  }

  function ReadAs(lib: O.Library, m: E.Source, i: nat): Read {
    if IsDirectory(m.head.name) then AnEntry(Directory, MetaOf(m.head, i))
    else
      match C.Decode(lib, m.head.codec, m.raw)
      case Bad(_) => AMember(MetaOf(m.head, i), [])
      case Made(bytes) => AMember(MetaOf(m.head, i), bytes)
  }

  function ReadsAs(lib: O.Library, ms: seq<E.Source>): seq<Read> {
    seq(|ms|, i requires 0 <= i < |ms| => ReadAs(lib, ms[i], i))
  }

  // One walker event after another: what the reader becomes, and what it has told.

  datatype Following = Following(r: ZipState, told: Told)

  function Landed(told: Told, br: Bridge): Option<Following> {
    if br.fault.Some? then None
    else
      match TellAll(told, br.out)
      case None => None
      case Some(t) => Some(Following(br.r, t))
  }

  function Follow(lib: O.Library, f: Following, e: Z.Event): Option<Following> {
    Landed(f.told, BridgeOne(lib, Bridge(f.r, [], None), e))
  }

  function FollowAll(lib: O.Library, f: Following, es: seq<Z.Event>): Option<Following> {
    if es == [] then Some(f)
    else
      match FollowAll(lib, f, es[..|es| - 1])
      case None => None
      case Some(mid) => Follow(lib, mid, es[|es| - 1])
  }

  lemma {:induction false} FollowThen(lib: O.Library, f: Following, x: seq<Z.Event>, y: seq<Z.Event>)
    ensures FollowAll(lib, f, x + y) == match FollowAll(lib, f, x) case None => None case Some(mid) => FollowAll(lib, mid, y)
  {
    hide Follow;
    if y == [] {
      assert x + y == x;
    } else {
      assert (x + y)[..|x + y| - 1] == x + y[..|y| - 1];
      FollowThen(lib, f, x, y[..|y| - 1]);
    }
  }

  lemma FollowOne(lib: O.Library, f: Following, e: Z.Event)
    ensures FollowAll(lib, f, [e]) == Follow(lib, f, e)
  {
    hide Follow;
    assert [e][..0] == [];
  }

  // The bridge gathers what it says for a whole byte; that makes no difference.

  /** Bytes tell the same joined to what was said before, or on their own. */
  lemma PushTold(t: Told, out: seq<ReaderEvent>, bytes: seq<Byte>)
    requires TellAll(t, out).Some?
    ensures TellAll(t, PushBytes(out, bytes)) == TellAll(TellAll(t, out).value, PushBytes([], bytes))
  {
    hide TellAll;
    var u := TellAll(t, out).value;
    NothingTold(u);
    if u.Inside? {
      TellBytes(t, out, bytes);
      TellBytes(u, [], bytes);
    } else {
      NotAfterBytes(t, out);
      if bytes != [] {
        TellMore(t, out, ReadBytes(bytes));
        TellMore(u, [], ReadBytes(bytes));
      }
    }
  }

  lemma NotAfterBytes(t: Told, out: seq<ReaderEvent>)
    requires TellAll(t, out).Some? && !TellAll(t, out).value.Inside?
    ensures out != [] ==> !out[|out| - 1].ReadBytes?
  {
    hide TellAll;
    if out != [] {
      var front, last := out[..|out| - 1], out[|out| - 1];
      assert out == front + [last];
      TellThen(t, front, [last]);
      TellOne(TellAll(t, front).value, last);
    }
  }

  lemma MoreTold(t: Told, out: seq<ReaderEvent>, e: ReaderEvent)
    requires TellAll(t, out).Some?
    ensures TellAll(t, out + [e]) == TellAll(TellAll(t, out).value, [e])
  {
    TellMore(t, out, e);
    TellOne(TellAll(t, out).value, e);
  }

  /** An event, with something said before it in the same byte or not. */
  lemma OneFollows(lib: O.Library, t: Told, br: Bridge, e: Z.Event)
    requires br.fault.None? && TellAll(t, br.out).Some?
    ensures Landed(t, BridgeOne(lib, br, e)) == Follow(lib, Following(br.r, TellAll(t, br.out).value), e)
  {
    hide TellAll, PushBytes;
    var u := TellAll(t, br.out).value;
    var alone := Bridge(br.r, [], None);
    NothingTold(u);
    match e {
      case LocalHeaderRead(name, codec, _, encrypted, sizes, _) =>
        var after := BridgeHeader(alone, name, codec, encrypted, sizes);
        if after.fault.None? {
          assert after.out == [] + [after.out[0]] == [after.out[0]];
          MoreTold(t, br.out, after.out[0]);
        }
      case MemberData(b) =>
        match br.r.decoder {
          case None =>
          case Some(Stored) => PushTold(t, br.out, [b]);
          case Some(Deflate(raw)) =>
            if lib.push(raw, b).Made? {
              PushTold(t, br.out, lib.push(raw, b).bytes);
            }
        }
      case MemberEnd(sizes, _) =>
        EndFollows(lib, t, br, sizes);
      case CentralBegun =>
    }
  }

  lemma EndFollows(lib: O.Library, t: Told, br: Bridge, sizes: R.MemberSizes)
    requires br.fault.None? && TellAll(t, br.out).Some?
    ensures Landed(t, BridgeEnd(lib, br, sizes)) == Landed(TellAll(t, br.out).value, BridgeEnd(lib, Bridge(br.r, [], None), sizes))
  {
    hide TellAll, PushBytes;
    var u := TellAll(t, br.out).value;
    NothingTold(u);
    if br.r.memberOpen {
      if br.r.decoder.Some? && br.r.decoder.value.Deflate? {
        if lib.close(br.r.decoder.value.raw).Made? {
          var bytes := lib.close(br.r.decoder.value.raw).bytes;
          var end := ReadEnd(br.r.produced + |bytes|);
          PushTold(t, br.out, bytes);
          MoreAfter(t, PushBytes(br.out, bytes), u, PushBytes([], bytes), end);
        }
      } else {
        MoreAfter(t, br.out, u, [], ReadEnd(br.r.produced));
      }
    }
  }

  lemma MoreAfter(t: Told, x: seq<ReaderEvent>, u: Told, y: seq<ReaderEvent>, e: ReaderEvent)
    requires TellAll(t, x) == TellAll(u, y)
    ensures TellAll(t, x + [e]) == TellAll(u, y + [e])
  {
    TellThen(t, x, [e]);
    TellThen(u, y, [e]);
  }

  /** What has gone wrong stays wrong. */
  lemma BrokenStays(lib: O.Library, t: Told, br: Bridge, e: Z.Event)
    requires Landed(t, br).None?
    ensures Landed(t, BridgeOne(lib, br, e)).None?
  {
    hide TellAll, PushBytes;
    if br.fault.None? {
      match e {
        case LocalHeaderRead(name, codec, _, encrypted, sizes, _) =>
          var after := BridgeHeader(br, name, codec, encrypted, sizes);
          if after.fault.None? {
            TellThen(t, br.out, [after.out[|br.out|]]);
          }
        case MemberData(b) =>
          match br.r.decoder {
            case None =>
            case Some(Stored) => BytesBroken(t, br.out, [b]);
            case Some(Deflate(raw)) =>
              if lib.push(raw, b).Made? {
                BytesBroken(t, br.out, lib.push(raw, b).bytes);
              }
          }
        case MemberEnd(sizes, _) =>
          EndBroken(lib, t, br, sizes);
        case CentralBegun =>
      }
    }
  }

  lemma EndBroken(lib: O.Library, t: Told, br: Bridge, sizes: R.MemberSizes)
    requires br.fault.None? && TellAll(t, br.out).None?
    ensures Landed(t, BridgeEnd(lib, br, sizes)).None?
  {
    hide TellAll, PushBytes;
    if br.r.memberOpen {
      if br.r.decoder.Some? && br.r.decoder.value.Deflate? {
        if lib.close(br.r.decoder.value.raw).Made? {
          var bytes := lib.close(br.r.decoder.value.raw).bytes;
          BytesBroken(t, br.out, bytes);
          TellThen(t, PushBytes(br.out, bytes), [ReadEnd(br.r.produced + |bytes|)]);
        }
      } else {
        TellThen(t, br.out, [ReadEnd(br.r.produced)]);
      }
    }
  }

  lemma BytesBroken(t: Told, out: seq<ReaderEvent>, bytes: seq<Byte>)
    requires TellAll(t, out).None?
    ensures TellAll(t, PushBytes(out, bytes)).None?
  {
    hide TellAll;
    if bytes != [] {
      if out != [] && out[|out| - 1].ReadBytes? {
        var front, last := out[..|out| - 1], out[|out| - 1];
        assert out == front + [last];
        TellThen(t, front, [last]);
        TellThen(t, front, [ReadBytes(last.bytes + bytes)]);
        if TellAll(t, front).Some? {
          TellOne(TellAll(t, front).value, last);
          TellOne(TellAll(t, front).value, ReadBytes(last.bytes + bytes));
        }
      } else {
        TellThen(t, out, [ReadBytes(bytes)]);
      }
    }
  }

  lemma {:induction false} AllFollow(lib: O.Library, t: Told, r: ZipState, es: seq<Z.Event>)
    ensures Landed(t, BridgeAll(lib, Bridge(r, [], None), es)) == FollowAll(lib, Following(r, t), es)
  {
    hide Follow, BridgeOne, TellAll;
    var start := Bridge(r, [], None);
    if es == [] {
      NothingTold(t);
    } else {
      var front, e := es[..|es| - 1], es[|es| - 1];
      AllFollow(lib, t, r, front);
      var mid := BridgeAll(lib, start, front);
      if Landed(t, mid).Some? {
        OneFollows(lib, t, mid, e);
      } else {
        BrokenStays(lib, t, mid, e);
      }
    }
  }

  // The walker inside the reader does not matter to what is told.

  function On(f: Option<Following>, w: Z.Walk): Option<Following> {
    match f
    case None => None
    case Some(g) => Some(g.(r := g.r.(walker := w)))
  }

  lemma EndOn(lib: O.Library, r: ZipState, w: Z.Walk, sizes: R.MemberSizes)
    ensures var after := BridgeEnd(lib, Bridge(r, [], None), sizes);
            BridgeEnd(lib, Bridge(r.(walker := w), [], None), sizes) == after.(r := after.r.(walker := w))
  {
    hide PushBytes;
  }

  lemma HeaderOn(r: ZipState, w: Z.Walk, name: seq<Byte>, codec: nat, encrypted: bool, sizes: Option<R.MemberSizes>)
    ensures var after := BridgeHeader(Bridge(r, [], None), name, codec, encrypted, sizes);
            BridgeHeader(Bridge(r.(walker := w), [], None), name, codec, encrypted, sizes) == after.(r := after.r.(walker := w))
  {
  }

  lemma DataOn(lib: O.Library, r: ZipState, w: Z.Walk, b: Byte)
    ensures var after := BridgeData(lib, Bridge(r, [], None), b);
            BridgeData(lib, Bridge(r.(walker := w), [], None), b) == after.(r := after.r.(walker := w))
  {
    hide PushBytes;
  }

  lemma FollowOn(lib: O.Library, f: Following, w: Z.Walk, e: Z.Event)
    ensures Follow(lib, f.(r := f.r.(walker := w)), e) == On(Follow(lib, f, e), w)
  {
    hide TellAll, BridgeHeader, BridgeData, BridgeEnd;
    match e {
      case LocalHeaderRead(name, codec, _, encrypted, sizes, _) => HeaderOn(f.r, w, name, codec, encrypted, sizes);
      case MemberData(b) => DataOn(lib, f.r, w, b);
      case MemberEnd(sizes, _) => EndOn(lib, f.r, w, sizes);
      case CentralBegun =>
    }
  }

  lemma {:induction false} FollowAllOn(lib: O.Library, f: Following, w: Z.Walk, es: seq<Z.Event>)
    ensures FollowAll(lib, f.(r := f.r.(walker := w)), es) == On(FollowAll(lib, f, es), w)
  {
    hide Follow;
    if es != [] {
      FollowAllOn(lib, f, w, es[..|es| - 1]);
      if FollowAll(lib, f, es[..|es| - 1]).Some? {
        FollowOn(lib, FollowAll(lib, f, es[..|es| - 1]).value, w, es[|es| - 1]);
      }
    }
  }

  const BASE := Following(NEW_ZIP, Between(Past(Zip, [])))

  /** One byte: the walker's step, and what its events make the reader say. */
  lemma StepFollows(lib: O.Library, r: ZipReader, t: Told, b: Byte)
    ensures var p, step := PushZip(lib, r, b), Z.Consume(r.walker, b);
            (if p.Refused? then None else Landed(t, Bridge(p.next, p.events, None))) ==
            if step.Stop? then None else On(FollowAll(lib, Following(r, t), step.events), step.next)
  {
    hide Z.Consume, BridgeAll, FollowAll, TellAll;
    match Z.Consume(r.walker, b) {
      case Stop(_) =>
      case Go(next, events, _) =>
        AllFollow(lib, t, r.(walker := next), events);
        FollowAllOn(lib, Following(r, t), next, events);
    }
  }

  /** Reading byte by byte follows the walk over the bytes, event by event. */
  lemma {:induction false} ReadingFollows(lib: O.Library, gunzip: Gunzip, infer: (seq<Byte>, seq<Byte>) -> Inferred, s: seq<Byte>)
    ensures var reading := Reading(ContainerReaders(lib, gunzip, infer), Zip, s);
            var run := S.Run(Z.START, s);
            var followed := if run.Some? then On(FollowAll(lib, BASE, run.value.events), run.value.next) else None;
            && (reading.Some? <==> followed.Some?)
            && (reading.Some? ==> reading.value.reader.ZipLevel? && Following(reading.value.reader.zip, reading.value.told) == followed.value)
  {
    hide PushTar, PushZip, PushGz, TellAll, Z.Consume, FollowAll;
    var readers := ContainerReaders(lib, gunzip, infer);
    if s == [] {
      FollowNothing(lib, BASE);
    } else {
      var front, b := s[..|s| - 1], s[|s| - 1];
      ReadingFollows(lib, gunzip, infer, front);
      if S.Run(Z.START, front).Some? {
        var run := S.Run(Z.START, front).value;
        var step := Z.Consume(run.next, b);
        if step.Go? {
          FollowThen(lib, BASE, run.events, step.events);
        }
        if Reading(readers, Zip, front).Some? {
          var st := Reading(readers, Zip, front).value;
          var f := FollowAll(lib, BASE, run.events).value;
          StepFollows(lib, st.reader.zip, st.told, b);
          if step.Go? {
            FollowAllOn(lib, f, run.next, step.events);
          }
        }
      }
    }
  }

  lemma FollowNothing(lib: O.Library, f: Following)
    ensures FollowAll(lib, f, []) == Some(f)
  {
  }

  // A member.

  /** Between members. */
  predicate Rests(f: Following) {
    f.told.Between? && !f.r.memberOpen && f.r.decoder.None? && f.r.ordinal == |f.told.past.said|
  }

  /** Inside a member that decodes. */
  predicate Decodes(f: Following, past: Past, meta: Meta, codec: nat, raw: seq<Byte>, bytes: seq<Byte>) {
    && f.told == Inside(past, meta, bytes) && f.r.memberOpen && f.r.produced == |bytes| && f.r.ordinal == |past.said| + 1
    && f.r.decoder == Some(if codec == 0 then Stored else Deflate(raw))
  }

  lemma HeadFollows(lib: O.Library, f: Following, head: Z.Event)
    requires Rests(f) && head.LocalHeaderRead?
    ensures var g := Follow(lib, f, head);
            var meta := MetaOf(head, |f.told.past.said|);
            if head.encrypted then g.None?
            else if IsDirectory(head.name) then
              (g.Some? <==> head.sizes.None? || head.sizes.value.uncompressed == 0)
              && (g.Some? ==> Rests(g.value) && g.value.told == Between(Remember(f.told.past, AnEntry(Directory, meta))))
            else
              (g.Some? <==> head.codec == 0 || head.codec == 8)
              && (g.Some? ==> Decodes(g.value, f.told.past, meta, head.codec, [], []))
  {
    hide TellAll;
    var br := BridgeOne(lib, Bridge(f.r, [], None), head);
    if br.fault.None? {
      assert br.out == [br.out[0]];
      TellOne(f.told, br.out[0]);
    }
  }

  lemma ByteFollows(lib: O.Library, f: Following, past: Past, meta: Meta, codec: nat, raw: seq<Byte>, bytes: seq<Byte>, b: Byte)
    requires (codec == 0 || codec == 8) && Decodes(f, past, meta, codec, raw, bytes)
    ensures var g, more := Follow(lib, f, Z.MemberData(b)), O.PushDecoder(lib, O.MemberDecoder(codec, raw, bytes), b);
            && (g.Some? <==> more.Made?)
            && (g.Some? ==> Decodes(g.value, past, meta, codec, raw + [b], bytes + more.bytes))
  {
    hide TellAll, PushBytes;
    NothingTold(f.told);
    if codec == 0 {
      TellBytes(f.told, [], [b]);
    } else if lib.push(raw, b).Made? {
      TellBytes(f.told, [], lib.push(raw, b).bytes);
    }
  }

  lemma {:induction false} DataFollows(lib: O.Library, f: Following, past: Past, meta: Meta, codec: nat, raw: seq<Byte>)
    requires (codec == 0 || codec == 8) && Decodes(f, past, meta, codec, [], [])
    ensures var g, fed := FollowAll(lib, f, S.DataEvents(raw)), C.Fed(lib, codec, raw);
            && (g.Some? <==> fed.Made?)
            && (g.Some? ==> Decodes(g.value, past, meta, codec, raw, fed.bytes))
  {
    hide Follow, Decodes, O.PushDecoder;
    if raw == [] {
      assert S.DataEvents(raw) == [];
    } else {
      var front, b := raw[..|raw| - 1], raw[|raw| - 1];
      DataFollows(lib, f, past, meta, codec, front);
      assert S.DataEvents(raw)[..|raw| - 1] == S.DataEvents(front) && raw == front + [b];
      var mid := FollowAll(lib, f, S.DataEvents(front));
      if mid.Some? {
        ByteFollows(lib, mid.value, past, meta, codec, front, C.Fed(lib, codec, front).bytes, b);
      }
    }
  }

  /** What is not decoded is passed over. */
  lemma {:induction false} SkipFollows(lib: O.Library, f: Following, raw: seq<Byte>)
    requires Rests(f)
    ensures FollowAll(lib, f, S.DataEvents(raw)) == Some(f)
  {
    if raw == [] {
      assert S.DataEvents(raw) == [];
    } else {
      var front := raw[..|raw| - 1];
      SkipFollows(lib, f, front);
      assert S.DataEvents(raw)[..|raw| - 1] == S.DataEvents(front);
      NothingTold(f.told);
    }
  }

  lemma EndHeard(lib: O.Library, f: Following, past: Past, meta: Meta, codec: nat, raw: seq<Byte>, bytes: seq<Byte>, sizes: R.MemberSizes, crc: nat)
    requires (codec == 0 || codec == 8) && Decodes(f, past, meta, codec, raw, bytes)
    ensures var g, rest := Follow(lib, f, Z.MemberEnd(sizes, crc)), O.CloseDecoder(lib, O.MemberDecoder(codec, raw, bytes));
            && (g.Some? <==> rest.Made? && |bytes + rest.bytes| == sizes.uncompressed)
            && (g.Some? ==> Rests(g.value) && g.value.told == Between(Remember(past, AMember(meta, bytes + rest.bytes))))
  {
    hide TellAll, PushBytes;
    NothingTold(f.told);
    var rest := O.CloseDecoder(lib, O.MemberDecoder(codec, raw, bytes));
    if rest.Made? {
      assert codec == 0 ==> bytes + rest.bytes == bytes;
      var out := if codec == 0 then [] else PushBytes([], rest.bytes);
      if codec == 8 {
        TellBytes(f.told, [], rest.bytes);
      }
      TellMore(f.told, out, ReadEnd(|bytes + rest.bytes|));
    }
  }

  /** A member a walk reports: read exactly when it is readable, and then as it is. */
  lemma SourceFollows(lib: O.Library, f: Following, m: E.Source)
    requires Rests(f)
    ensures var g := FollowAll(lib, f, E.SourceEvents(m));
            && (g.Some? <==> Readable(lib, m))
            && (g.Some? ==> Rests(g.value) && g.value.told == Between(Remember(f.told.past, ReadAs(lib, m, |f.told.past.said|))))
  {
    var past, meta, codec := f.told.past, MetaOf(m.head, |f.told.past.said|), m.head.codec;
    hide Follow, FollowAll, Rests, Decodes, C.Fed, S.DataEvents, O.CloseDecoder;
    var data, end := S.DataEvents(m.raw), Z.MemberEnd(m.ended, m.endCrc);
    FollowThen(lib, f, [m.head], data + [end]);
    FollowOne(lib, f, m.head);
    HeadFollows(lib, f, m.head);
    var g := Follow(lib, f, m.head);
    if g.Some? {
      FollowThen(lib, g.value, data, [end]);
      if IsDirectory(m.head.name) {
        SkipFollows(lib, g.value, m.raw);
        FollowOne(lib, g.value, end);
        PassedOver(lib, g.value, m.ended, m.endCrc);
      } else {
        DataFollows(lib, g.value, past, meta, codec, m.raw);
        var h := FollowAll(lib, g.value, data);
        if h.Some? {
          FollowOne(lib, h.value, end);
          EndHeard(lib, h.value, past, meta, codec, m.raw, C.Fed(lib, codec, m.raw).bytes, m.ended, m.endCrc);
        }
      }
    }
  }

  lemma PassedOver(lib: O.Library, f: Following, sizes: R.MemberSizes, crc: nat)
    requires Rests(f)
    ensures Follow(lib, f, Z.MemberEnd(sizes, crc)) == Some(f) && Follow(lib, f, Z.CentralBegun) == Some(f)
  {
    NothingTold(f.told);
  }

  lemma {:induction false} SourcesFollow(lib: O.Library, ms: seq<E.Source>)
    ensures var g := FollowAll(lib, BASE, E.SourcesEvents(ms));
            && (g.Some? <==> forall i :: 0 <= i < |ms| ==> Readable(lib, ms[i]))
            && (g.Some? ==> Rests(g.value) && g.value.told == Between(Past(Zip, ReadsAs(lib, ms))))
  {
    hide FollowAll, ReadAs, Readable, E.SourceEvents;
    FollowNothing(lib, BASE);
    if ms == [] {
      assert ReadsAs(lib, ms) == [];
    } else {
      var front, m := ms[..|ms| - 1], ms[|ms| - 1];
      SourcesFollow(lib, front);
      FollowThen(lib, BASE, E.SourcesEvents(front), E.SourceEvents(m));
      var g := FollowAll(lib, BASE, E.SourcesEvents(front));
      if g.Some? {
        SourceFollows(lib, g.value, m);
        assert ReadsAs(lib, ms) == ReadsAs(lib, front) + [ReadAs(lib, m, |front|)];
      }
    }
  }

  /**
   * A ZIP archive whose walk reports these members is read out exactly when each of them is readable: nothing encrypted,
   * no other method, every length as its end says. It is read out as them, in order, with their decoded bytes.
   */
  lemma ZipAccount(lib: O.Library, gunzip: Gunzip, infer: (seq<Byte>, seq<Byte>) -> Inferred, s: seq<Byte>, ms: seq<E.Source>)
    requires ZR.Reports(s, E.PackageEvents(ms))
    ensures var out := ReadOut(ContainerReaders(lib, gunzip, infer), Zip, s);
            && (out.Some? <==> forall i :: 0 <= i < |ms| ==> Readable(lib, ms[i]))
            && (out.Some? ==> out.value.past == Past(Zip, ReadsAs(lib, ms)))
  {
    hide Reading, S.Run, FollowAll, Readable, E.SourcesEvents, ReadsAs;
    ReadingFollows(lib, gunzip, infer, s);
    SourcesFollow(lib, ms);
    FollowThen(lib, BASE, E.SourcesEvents(ms), [Z.CentralBegun]);
    var g := FollowAll(lib, BASE, E.SourcesEvents(ms));
    if g.Some? {
      FollowOne(lib, g.value, Z.CentralBegun);
      PassedOver(lib, g.value, R.MemberSizes(0, 0), 0);
      NothingTold(g.value.told);
    }
  }

  /** Bytes the walk faults on, or may not finish after, are not read out. */
  lemma NotRead(lib: O.Library, gunzip: Gunzip, infer: (seq<Byte>, seq<Byte>) -> Inferred, s: seq<Byte>)
    requires !(S.Run(Z.START, s).Some? && Z.MayFinish(S.Run(Z.START, s).value.next))
    ensures ReadOut(ContainerReaders(lib, gunzip, infer), Zip, s).None?
  {
    hide Reading, S.Run, FollowAll;
    ReadingFollows(lib, gunzip, infer, s);
  }
}
