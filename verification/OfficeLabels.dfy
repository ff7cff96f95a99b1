/** Which archives the ZIP reader tells to be Office packages (src/decompose/zip.rs, src/decompose/decomposer.rs). */
module OfficeLabels {
  import opened Bytes
  import opened DecomposeSink
  import opened DecomposeReading
  import opened DecomposeReaders
  import opened ZipAccounts
  import Z = ZipWalker
  import E = ZipEvents
  import S = ZipScan
  import O = OoxmlCore
  import ZR = ZipRoundTrip

  /** Everything told so far, an open member included. */
  function Reads(t: Told): seq<Read> {
    match t
    case Unannounced => []
    case Between(past) => past.said
    case Inside(past, meta, bytes) => past.said + [AMember(meta, bytes)]
  }

  predicate FirstIs(said: seq<Read>) {
    said != [] && said[0].meta.path == O.CONTENT_TYPES
  }

  /** The kind of the first member that is a main part. */
  function FirstMain(said: seq<Read>): Option<O.OfficeKind> {
    if said == [] then None
    else
      var earlier, last := FirstMain(said[..|said| - 1]), said[|said| - 1];
      if earlier.Some? then earlier else if last.AMember? then O.KindOfMainPart(last.meta.path) else None
  }

  /** Content types first, and a main part: the package is of the first such part's kind. */
  function OfficeOf(said: seq<Read>): Option<Label> {
    if FirstIs(said) && FirstMain(said).Some? then Some(O.MainPart(FirstMain(said).value)) else None
  }

  lemma MainSnoc(said: seq<Read>, read: Read)
    ensures FirstMain(said + [read]) ==
            if FirstMain(said).Some? then FirstMain(said) else if read.AMember? then O.KindOfMainPart(read.meta.path) else None
  {
    assert (said + [read])[..|said|] == said;
  }

  lemma NotMain()
    ensures O.KindOfMainPart(O.CONTENT_TYPES) == None
  {
  }

  /** What has been told first stays first. */
  lemma TellKeeps(t: Told, e: ReaderEvent)
    requires Tell(t, e).Some? && Reads(t) != []
    ensures Reads(Tell(t, e).value) != [] && FirstIs(Reads(Tell(t, e).value)) == FirstIs(Reads(t))
  {
  }

  lemma {:induction false} TellAllKeeps(t: Told, es: seq<ReaderEvent>)
    requires TellAll(t, es).Some? && Reads(t) != []
    ensures Reads(TellAll(t, es).value) != [] && FirstIs(Reads(TellAll(t, es).value)) == FirstIs(Reads(t))
    decreases |es|
  {
    hide Tell, Reads, FirstIs;
    if es != [] {
      TellKeeps(t, es[0]);
      TellAllKeeps(Tell(t, es[0]).value, es[1..]);
    }
  }

  /** One more thing said. */
  lemma OneLabel(t: Told, e: ReaderEvent, known: bool)
    requires Tell(t, e).Some? && (Reads(Tell(t, e).value) != [] ==> known == FirstIs(Reads(Tell(t, e).value)))
    ensures OfficeOf(Reads(Tell(t, e).value)) ==
            if OfficeOf(Reads(t)).None? && e.ReadStart? && known && O.KindOfMainPart(e.member.path).Some?
            then Some(O.MainPart(O.KindOfMainPart(e.member.path).value)) else OfficeOf(Reads(t))
  {
    hide O.KindOfMainPart, O.MainPart, FirstMain;
    var u := Tell(t, e).value;
    NotMain();
    NoneFirst();
    match e {
      case Announce(kind) =>
      case ReadEntry(entry, meta) =>
        MainSnoc(t.past.said, AnEntry(entry, meta));
      case ReadStart(meta) =>
        MainSnoc(t.past.said, AMember(meta, []));
      case ReadBytes(bytes) =>
        MainSnoc(t.past.said, AMember(t.meta, t.bytes));
        MainSnoc(t.past.said, AMember(t.meta, t.bytes + bytes));
      case ReadEnd(length) =>
    }
  }

  lemma NoneFirst()
    ensures FirstMain([]) == None
  {
  }

  /** The label the driver keeps is the one of everything told, when the reader knows whether content types came first. */
  lemma {:induction false} LabelsAll(readers: Readers<LevelReader>, r: LevelReader, t: Told, es: seq<ReaderEvent>)
    requires readers.office == OfficeLabel && r.ZipLevel? && TellAll(t, es).Some?
    requires r.zip.officeFirst == FirstIs(Reads(TellAll(t, es).value))
    ensures LabelledAll(readers, r, OfficeOf(Reads(t)), es) == OfficeOf(Reads(TellAll(t, es).value))
    decreases |es|
  {
    hide Tell, Reads, FirstIs, OfficeOf, O.KindOfMainPart, O.MainPart;
    if es != [] {
      var u := Tell(t, es[0]).value;
      if Reads(u) != [] {
        TellAllKeeps(u, es[1..]);
      }
      OneLabel(t, es[0], r.zip.officeFirst);
      LabelsAll(readers, r, u, es[1..]);
    }
  }

  // What the reader knows.

  predicate Knows(f: Following) {
    f.r.ordinal == |Reads(f.told)| && f.r.officeFirst == FirstIs(Reads(f.told))
  }

  lemma {:induction false} TellBytesReads(t: Told, bytes: seq<Byte>)
    requires TellAll(t, PushBytes([], bytes)).Some?
    ensures var u := TellAll(t, PushBytes([], bytes)).value;
            |Reads(u)| == |Reads(t)| && FirstIs(Reads(u)) == FirstIs(Reads(t)) && (t.Inside? ==> u.Inside?)
            && (!t.Inside? ==> u == t)
  {
    if bytes != [] {
      TellOne(t, ReadBytes(bytes));
    } else {
      NothingTold(t);
    }
  }

  lemma FollowKnows(lib: O.Library, f: Following, e: Z.Event)
    requires Knows(f) && Follow(lib, f, e).Some?
    ensures Knows(Follow(lib, f, e).value)
  {
    hide TellAll, PushBytes;
    NothingTold(f.told);
    match e {
      case LocalHeaderRead(name, codec, _, encrypted, sizes, _) =>
        var br := BridgeHeader(Bridge(f.r, [], None), name, codec, encrypted, sizes);
        assert br.out == [br.out[0]];
        TellOne(f.told, br.out[0]);
      case MemberData(b) =>
        match f.r.decoder {
          case None =>
          case Some(Stored) => TellBytesReads(f.told, [b]);
          case Some(Deflate(raw)) => TellBytesReads(f.told, lib.push(raw, b).bytes);
        }
      case MemberEnd(sizes, _) =>
        if f.r.memberOpen {
          if f.r.decoder.Some? && f.r.decoder.value.Deflate? {
            var bytes := lib.close(f.r.decoder.value.raw).bytes;
            EndKnows(f.told, PushBytes([], bytes), ReadEnd(f.r.produced + |bytes|));
            TellBytesReads(f.told, bytes);
          } else {
            EndKnows(f.told, [], ReadEnd(f.r.produced));
          }
        }
      case CentralBegun =>
    }
  }

  lemma EndKnows(t: Told, es: seq<ReaderEvent>, e: ReaderEvent)
    requires e.ReadEnd? && TellAll(t, es + [e]).Some?
    ensures TellAll(t, es).Some? && TellAll(t, es + [e]) == Tell(TellAll(t, es).value, e)
    ensures var u, v := TellAll(t, es).value, TellAll(t, es + [e]).value;
            |Reads(v)| == |Reads(u)| && FirstIs(Reads(v)) == FirstIs(Reads(u))
  {
    hide TellAll;
    TellThen(t, es, [e]);
    TellOne(TellAll(t, es).value, e);
  }

  lemma {:induction false} FollowAllKnows(lib: O.Library, f: Following, es: seq<Z.Event>)
    requires Knows(f) && FollowAll(lib, f, es).Some?
    ensures Knows(FollowAll(lib, f, es).value)
  {
    hide Follow, Knows;
    if es != [] {
      FollowAllKnows(lib, f, es[..|es| - 1]);
      FollowKnows(lib, FollowAll(lib, f, es[..|es| - 1]).value, es[|es| - 1]);
    }
  }

  lemma {:induction false} ReadingLabels(lib: O.Library, gunzip: Gunzip, infer: (seq<Byte>, seq<Byte>) -> Inferred, s: seq<Byte>)
    requires Reading(ContainerReaders(lib, gunzip, infer), Zip, s).Some?
    ensures var st := Reading(ContainerReaders(lib, gunzip, infer), Zip, s).value;
            st.reader.ZipLevel? && Knows(Following(st.reader.zip, st.told)) && st.office == OfficeOf(Reads(st.told))
  {
    hide PushTar, PushZip, PushGz, TellAll, Z.Consume, FollowAll, Reads, FirstIs, OfficeOf, OfficeLabel, On;
    var readers := ContainerReaders(lib, gunzip, infer);
    ReadingFollows(lib, gunzip, infer, s);
    BaseKnows();
    OnKnows(FollowAll(lib, BASE, S.Run(Z.START, s).value.events), S.Run(Z.START, s).value.next);
    FollowAllKnows(lib, BASE, S.Run(Z.START, s).value.events);
    if s != [] {
      var front, b := s[..|s| - 1], s[|s| - 1];
      ReadingLabels(lib, gunzip, infer, front);
      var st, p := Reading(readers, Zip, front).value, PushZip(lib, Reading(readers, Zip, front).value.reader.zip, b);
      LabelsAll(readers, ZipLevel(p.next), st.told, p.events);
    }
  }

  lemma BaseKnows()
    ensures Knows(BASE) && OfficeOf(Reads(BASE.told)) == None
  {
  }

  lemma OnKnows(f: Option<Following>, w: Z.Walk)
    ensures On(f, w).Some? <==> f.Some?
    ensures f.Some? && Knows(f.value) ==> Knows(On(f, w).value)
  {
  }

  /** A ZIP archive that is read out is labelled exactly when content types come first and some member is a main part, by the first such. */
  lemma ZipLabelled(lib: O.Library, gunzip: Gunzip, infer: (seq<Byte>, seq<Byte>) -> Inferred, s: seq<Byte>)
    requires ReadOut(ContainerReaders(lib, gunzip, infer), Zip, s).Some?
    ensures var out := ReadOut(ContainerReaders(lib, gunzip, infer), Zip, s).value; out.office == OfficeOf(out.past.said)
  {
    hide Reading, FollowAll, OfficeOf;
    ReadingLabels(lib, gunzip, infer, s);
    NothingTold(Reading(ContainerReaders(lib, gunzip, infer), Zip, s).value.told);
  }
}
