/** What the TAR reader tells of an archive, said from the walk over it (src/decompose/tar.rs): every entry, in order, members with their bytes. */
module TarAccounts {
  import opened Bytes
  import opened DecomposeSink
  import opened DecomposeReading
  import opened DecomposeReaders
  import T = TarWalker
  import W = TarWriter
  import TR = TarRoundTrip
  import O = OoxmlCore

  // From the reports of a walk to what has been told.

  function MetaOf(entry: T.TarEntry, ordinal: nat): Meta {
    Meta(entry.path, ordinal, Some(entry.size), entry.mode, entry.mtime)
  }

  /** An entry of another kind is told with its kind; a regular one is a member. */
  function KindAs(kind: T.Kind): EntryKind
    requires !kind.Regular?
  {
    if kind.Directory? then Directory
    else if kind.Symlink? then Symlink(kind.target)
    else if kind.Hardlink? then Hardlink(kind.target)
    else Other(kind.tag)
  }

  /** Entries are numbered in the order they come; a member is told when as many of its bytes have come as its entry says. */
  function Hear(t: Told, report: T.Report): Told {
    match (t, report)
    case (Between(past), Opens(entry)) =>
      var meta := MetaOf(entry, |past.said|);
      if !entry.kind.Regular? then Between(Remember(past, AnEntry(KindAs(entry.kind), meta)))
      else if entry.size == 0 then Between(Remember(past, AMember(meta, [])))
      else Inside(past, meta, [])
    case (Inside(past, meta, bytes), Carries(b)) =>
      if meta.size == Some(|bytes| + 1) then Between(Remember(past, AMember(meta, bytes + [b]))) else Inside(past, meta, bytes + [b])
    case _ => t
  }

  function HearAll(t: Told, reports: seq<T.Report>): Told {
    if reports == [] then t else Hear(HearAll(t, reports[..|reports| - 1]), reports[|reports| - 1])
  }

  lemma {:induction false} HearThen(t: Told, x: seq<T.Report>, y: seq<T.Report>)
    ensures HearAll(t, x + y) == HearAll(HearAll(t, x), y)
  {
    hide Hear;
    if y == [] {
      assert x + y == x;
    } else {
      assert (x + y)[..|x + y| - 1] == x + y[..|y| - 1];
      HearThen(t, x, y[..|y| - 1]);
    }
  }

  lemma HearOne(t: Told, report: T.Report)
    ensures HearAll(t, [report]) == Hear(t, report)
  {
    assert [report][..0] == [];
  }

  /** The reader's counters are those of what it has told. */
  predicate InStep(r: TarState, t: Told) {
    match t
    case Unannounced => false
    case Between(past) => r.remaining == None && r.ordinal == |past.said|
    case Inside(past, meta, bytes) =>
      r.remaining.Some? && r.remaining.value > 0 && meta.size == Some(r.size) && |bytes| + r.remaining.value == r.size
      && r.ordinal == |past.said| + 1
  }

  /** One byte: the reader refuses it when the walker does, and tells what the walker reports. */
  lemma StepHeard(r: TarReader, b: Byte, t: Told)
    requires InStep(r, t)
    ensures PushTar(r, b).Refused? == T.Consume(r.walker, b).Stop?
    ensures PushTar(r, b).Pushed? ==>
              var p, step := PushTar(r, b), T.Consume(r.walker, b);
              && p.next.walker == step.next && TellAll(t, p.events) == Some(HearAll(t, T.Reported(step.event, b)))
              && InStep(p.next, HearAll(t, T.Reported(step.event, b)))
  {
    hide T.Consume;
    TarStepOk(r, b);
    NothingTold(t);
    if T.Consume(r.walker, b).Go? {
      TarStepState(r.walker, b);
      var event := T.Consume(r.walker, b).event;
      var es := PushTar(r, b).events;
      if !event.Nothing? {
        HearOne(t, T.Reported(event, b)[0]);
      }
      if |es| == 1 {
        TellOne(t, es[0]);
        assert es == [es[0]];
      } else if |es| == 2 {
        assert es == [es[0]] + [es[1]];
        TellOne(t, es[0]);
        TellMore(t, [es[0]], es[1]);
      }
    }
  }

  /** Reading byte by byte tells exactly what the walk over the bytes reports, and is refused exactly where the walk faults. */
  lemma {:induction false} ReadingHears(lib: O.Library, gunzip: Gunzip, infer: (seq<Byte>, seq<Byte>) -> Inferred, s: seq<Byte>)
    ensures var reading := Reading(ContainerReaders(lib, gunzip, infer), Tar, s);
            var run := T.Run(T.START, s);
            && (reading.Some? <==> run.Some?)
            && (run.Some? ==>
                  && reading.value.reader.TarLevel? && reading.value.office == None
                  && reading.value.reader.tar.walker == run.value.next
                  && reading.value.told == HearAll(Between(Past(Tar, [])), run.value.reports)
                  && InStep(reading.value.reader.tar, reading.value.told))
  {
    hide PushTar, PushZip, PushGz, TellAll, Hear;
    var readers := ContainerReaders(lib, gunzip, infer);
    if s != [] {
      var front, b := s[..|s| - 1], s[|s| - 1];
      ReadingHears(lib, gunzip, infer, front);
      if T.Run(T.START, front).Some? {
        var st := Reading(readers, Tar, front).value;
        var r := st.reader.tar;
        StepHeard(r, b, st.told);
        if PushTar(r, b).Pushed? {
          var p := PushTar(r, b);
          HearThen(Between(Past(Tar, [])), T.Run(T.START, front).value.reports, T.Reported(T.Consume(r.walker, b).event, b));
          NoLabels(readers, TarLevel(p.next), p.events);
        }
      }
    }
  }

  lemma {:induction false} NoLabels(readers: Readers<LevelReader>, r: LevelReader, es: seq<ReaderEvent>)
    requires forall path :: readers.office(r, path) == None
    ensures LabelledAll(readers, r, None, es) == None
    decreases |es|
  {
    if es != [] {
      NoLabels(readers, r, es[1..]);
    }
  }

  /** A TAR container is read out exactly when the walk over it may finish, as what that walk reported. */
  lemma TarAccount(lib: O.Library, gunzip: Gunzip, infer: (seq<Byte>, seq<Byte>) -> Inferred, s: seq<Byte>)
    ensures var out := ReadOut(ContainerReaders(lib, gunzip, infer), Tar, s);
            var run := T.Run(T.START, s);
            && (out.Some? <==> run.Some? && T.MayFinish(run.value.next))
            && (out.Some? ==> Between(out.value.past) == HearAll(Between(Past(Tar, [])), run.value.reports) && out.value.office == None)
  {
    hide Reading, T.Run, HearAll;
    ReadingHears(lib, gunzip, infer, s);
    if T.Run(T.START, s).Some? {
      NothingTold(Reading(ContainerReaders(lib, gunzip, infer), Tar, s).value.told);
    }
  }

  // An archive of entries.

  /** What is told of the `i`-th of the writer's items. */
  function ReadAs(item: W.Item, i: nat): Read {
    var meta := Meta(item.path, i, Some(|item.data|), Some(W.ModeOf(item.kind)), Some(0));
    if item.kind.Regular? then AMember(meta, item.data) else AnEntry(KindAs(item.kind), meta)
  }

  function ReadsAs(items: seq<W.Item>): seq<Read> {
    seq(|items|, i requires 0 <= i < |items| => ReadAs(items[i], i))
  }

  /** A member's bytes fill it. */
  lemma {:induction false} HearBytes(past: Past, meta: Meta, data: seq<Byte>, k: nat)
    requires meta.size == Some(|data|) && k < |data|
    ensures HearAll(Inside(past, meta, []), TR.CarriesOf(data)[..k]) == Inside(past, meta, data[..k])
  {
    var c := TR.CarriesOf(data);
    if k == 0 {
      assert c[..0] == [];
    } else {
      HearBytes(past, meta, data, k - 1);
      assert c[..k][..k - 1] == c[..k - 1] && data[..k] == data[..k - 1] + [data[k - 1]];
    }
  }

  lemma HearItem(past: Past, item: W.Item)
    requires !item.kind.Regular? ==> item.data == []
    ensures HearAll(Between(past), TR.ItemReports(item)) == Between(Remember(past, ReadAs(item, |past.said|)))
  {
    hide W.ModeOf;
    var reports := TR.ItemReports(item);
    var opens := reports[0];
    assert reports == [opens] + TR.CarriesOf(item.data);
    HearThen(Between(past), [opens], TR.CarriesOf(item.data));
    HearOne(Between(past), opens);
    if item.data != [] {
      var c, k, meta := TR.CarriesOf(item.data), |item.data| - 1, ReadAs(item, |past.said|).meta;
      HearBytes(past, meta, item.data, k);
      assert c[..|c| - 1] == c[..k] && item.data == item.data[..k] + [item.data[k]];
    }
  }

  lemma {:induction false} HearItems(items: seq<W.Item>)
    requires forall i :: 0 <= i < |items| && !items[i].kind.Regular? ==> items[i].data == []
    ensures HearAll(Between(Past(Tar, [])), TR.AllReports(items)) == Between(Past(Tar, ReadsAs(items)))
  {
    hide Hear, HearAll, ReadAs;
    if items == [] {
      assert TR.AllReports(items) == [] && ReadsAs(items) == [];
      HearNothing(Between(Past(Tar, [])));
    } else {
      var front, item := items[..|items| - 1], items[|items| - 1];
      HearItems(front);
      HearThen(Between(Past(Tar, [])), TR.AllReports(front), TR.ItemReports(item));
      HearItem(Past(Tar, ReadsAs(front)), item);
      assert ReadsAs(items) == ReadsAs(front) + [ReadAs(item, |front|)];
    }
  }

  lemma HearNothing(t: Told)
    ensures HearAll(t, []) == t
  {
  }

  /** The archive the writer prints is read out as its entries: paths, kinds, targets, modes, sizes and bytes, numbered from zero. */
  lemma ArchiveTold(lib: O.Library, gunzip: Gunzip, infer: (seq<Byte>, seq<Byte>) -> Inferred, items: seq<W.Item>)
    requires forall i :: 0 <= i < |items| ==> W.Printable(items[i]) && TR.Faithful(items[i])
    ensures ReadOut(ContainerReaders(lib, gunzip, infer), Tar, W.Archive(items)) == Some(Account(Past(Tar, ReadsAs(items)), None))
  {
    hide ReadOut, T.Run, HearAll, W.Archive, TR.Faithful, TR.AllReports, ReadsAs;
    var run := T.Run(T.START, W.Archive(items));
    TarAccount(lib, gunzip, infer, W.Archive(items));
    TR.RoundTrip(items);
    forall i | 0 <= i < |items| && !items[i].kind.Regular? ensures items[i].data == [] {
      assert W.Printable(items[i]);
    }
    HearItems(items);
    var told := HearAll(Between(Past(Tar, [])), TR.AllReports(items));
    HearThen(Between(Past(Tar, [])), TR.AllReports(items), [T.Closes]);
    HearOne(told, T.Closes);
  }
}
