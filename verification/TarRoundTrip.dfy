/** Walking what the canonical TAR writer prints. */
module TarRoundTrip {
  import opened Bytes
  import opened TarText
  import opened TarWalker
  import opened TarWriter
  import opened TarHeaders

  // Reading a header back.

  /** The writer's header is one of those: no owners, no time, no prefix. */
  function PlainHeader(path: seq<Byte>, size: nat, mode: nat, tag: Byte, link: seq<Byte>): (u: Ustar)
    ensures Formed(u)
  {
    Ustar(path[..if |path| < 100 then |path| else 100], mode, 0, 0, size, 0, tag, link[..if |link| < 100 then |link| else 100],
          MAGIC, [0] + [48, 48] + Zeros(80), [], Zeros(12))
  }

  lemma HeaderIsPlain(path: seq<Byte>, size: nat, mode: nat, tag: Byte, link: seq<Byte>)
    ensures HeaderBlock(path, size, mode, tag, link) == Print(PlainHeader(path, size, mode, tag, link))
  {
    hide Octal, Sum;
    var u := PlainHeader(path, size, mode, tag, link);
    assert Front(path, size, mode) == Leading(u);
    assert Back(tag, link) == Trailing(u);
  }

  /** The writer's fixed values: modes 755 and 644, in octal, the magic, and the pax header's name and tag. */
  lemma FixedValues(kind: Kind)
    ensures ModeOf(kind) == if kind.Directory? then 7 * 64 + 5 * 8 + 5 else 6 * 64 + 4 * 8 + 4
    ensures MAGIC == Ascii("ustar") && PAX_NAME == Ascii("@PaxHeader") && PAX_TAG == 'x' as int
  {
    var magic, name := "ustar", "@PaxHeader";
    assert magic[0] == 'u' && magic[1] == 's' && magic[2] == 't' && magic[3] == 'a' && magic[4] == 'r';
    assert name[0] == '@' && name[1] == 'P' && name[2] == 'a' && name[3] == 'x' && name[4] == 'H' && name[5] == 'e' && name[6] == 'a'
           && name[7] == 'd' && name[8] == 'e' && name[9] == 'r';
  }

  /** The printed checksum is the header's checksum, and reads back as it. */
  lemma ChecksumHolds(path: seq<Byte>, size: nat, mode: nat, tag: Byte, link: seq<Byte>)
    ensures ChecksumMatches(HeaderBlock(path, size, mode, tag, link))
  {
    hide Print, HeaderBlock, ChecksumMatches;
    HeaderIsPlain(path, size, mode, tag, link);
    PrintedMatches(PlainHeader(path, size, mode, tag, link));
  }

  /** The name a header field gives back: cut at its first NUL, or at the field's end. */
  function Kept(name: seq<Byte>): seq<Byte> {
    CString(Name(name, 100))
  }

  lemma KeptShort(name: seq<Byte>)
    requires |name| <= 100
    ensures Kept(name) == CString(name) && (Kept(name) == name <==> NulFree(name))
  {
    NameReads(name, 100);
    CStringExactly(name);
  }

  /** What the walker makes of a printed header, once its overrides are known. */
  lemma HeaderReads(facts: Facts, path: seq<Byte>, size: nat, mode: nat, tag: Byte, link: seq<Byte>)
    requires size < Power8(11) && mode < Power8(7)
    ensures var b := HeaderBlock(path, size, mode, tag, link);
            && !AllZero(b) && b[156] == tag && ParseOctal(b[124..136]) == Some(size)
            && BuildEntry(facts, b, tag, size) ==
               (match KindOf(tag, if facts.link.Some? then facts.link.value else Kept(link))
                case None => None
                case Some(kind) =>
                  Some(TarEntry(if facts.path.Some? then facts.path.value else Kept(path), kind,
                                if facts.size.Some? then facts.size.value else size, Some(mode), Some(0))))
  {
    hide ParseOctal, HeaderBlock, CString, Name, Power8, KindBy, KindOf, Print, OctalField;
    var u := PlainHeader(path, size, mode, tag, link);
    HeaderIsPlain(path, size, mode, tag, link);
    PrintedMatches(u);
    PowersGrow();
    FieldsRead(u);
    NumbersBack(u);
    BuildsEntry(facts, u);
    KindsAgree(tag, if facts.link.Some? then facts.link.value else Kept(link));
    ShortName(path);
    ShortName(link);
    NoPrefix();
  }

  lemma NameFirst(path: seq<Byte>, size: nat, mode: nat, tag: Byte, link: seq<Byte>)
    ensures HeaderBlock(path, size, mode, tag, link)[0..100] == Name(path, 100)
  {
    hide HeaderBlock, Name, Print, OctalField, CString;
    HeaderIsPlain(path, size, mode, tag, link);
    FieldsRead(PlainHeader(path, size, mode, tag, link));
    ShortName(path);
  }

  lemma ShortName(name: seq<Byte>)
    ensures var short := name[..if |name| < 100 then |name| else 100]; Name(name, 100) == Name(short, 100) && Kept(name) == CString(short)
  {
    NameReads(name[..if |name| < 100 then |name| else 100], 100);
  }

  lemma NoPrefix()
    ensures CString([]) == []
  {
  }

  lemma PowersGrow()
    ensures 0 < Power8(7) && 0 < Power8(11)
  {
  }

  // Runs over blocks and payloads.

  /** The state after `k` of `n` bytes of data or padding. */
  function AfterData(n: nat, padding: nat): State {
    if n == 0 && padding == 0 then Header else InData(n, padding)
  }

  function CarriesOf(data: seq<Byte>): seq<Report> {
    seq(|data|, i requires 0 <= i < |data| => Carries(data[i]))
  }

  lemma CarriesNothing()
    ensures CarriesOf([]) == []
  {
  }

  lemma CarriesOne(data: seq<Byte>, k: nat)
    requires k < |data|
    ensures CarriesOf(data[..k + 1]) == CarriesOf(data[..k]) + [Carries(data[k])]
  {
  }

  lemma {:induction false} DataRun(w: Walk, data: seq<Byte>, padding: nat, k: nat)
    requires ValidWalk(w) && k <= |data| && w.state == AfterData(|data|, padding) && w.block == []
    ensures Run(w, data[..k]) == Some(Ran(w.(state := AfterData(|data| - k, padding)), CarriesOf(data[..k])))
  {
    hide Run, CarriesOf, CollectHeader;
    if k == 0 {
      RunNothing(w);
      CarriesNothing();
      assert data[..0] == [];
    } else {
      DataRun(w, data, padding, k - 1);
      RunStep(w, data, k - 1);
      CarriesOne(data, k - 1);
    }
  }

  lemma {:induction false} PaddingRun(w: Walk, padding: nat, k: nat)
    requires ValidWalk(w) && k <= padding && w.state == AfterData(0, padding) && w.block == []
    ensures Run(w, Zeros(padding)[..k]) == Some(Ran(w.(state := AfterData(0, padding - k)), []))
  {
    hide Run, CollectHeader;
    if k == 0 {
      RunNothing(w);
      assert Zeros(padding)[..0] == [];
    } else {
      PaddingRun(w, padding, k - 1);
      RunStepQuiet(w, Zeros(padding), k - 1, w.(state := AfterData(0, padding - k + 1)));
    }
  }

  /** A member's bytes and padding. */
  lemma PayloadRun(w: Walk, data: seq<Byte>, padding: nat)
    requires ValidWalk(w) && w.state == AfterData(|data|, padding) && w.block == []
    ensures Run(w, data + Zeros(padding)) == Some(Ran(w.(state := Header), CarriesOf(data)))
  {
    hide Run, CarriesOf;
    DataRun(w, data, padding, |data|);
    assert data[..|data|] == data;
    var mid := w.(state := AfterData(0, padding));
    PaddingRun(mid, padding, padding);
    assert Zeros(padding)[..padding] == Zeros(padding);
    RunThen(w, data, Zeros(padding));
    assert CarriesOf(data) + [] == CarriesOf(data);
  }

  // The pax block.

  /** Between entries, with no override pending. */
  predicate Between(w: Walk) {
    w.state == Header && w.block == [] && w.overrides == Overrides(NO_FACTS, [])
  }

  lemma PaxHeaderRun(w: Walk, size: nat)
    requires Between(w) && 0 < size < Power8(11)
    ensures Run(w, HeaderBlock(PAX_NAME, size, MODE_MEMBER, PAX_TAG, [])) ==
            Some(Ran(w.(state := InOverride(size, Padding(size), PaxNext)), []))
  {
    hide Run, HeaderBlock, Power8, ParseOctal, ChecksumMatches, BuildEntry;
    var b := HeaderBlock(PAX_NAME, size, MODE_MEMBER, PAX_TAG, []);
    ModesFit();
    HeaderReads(NO_FACTS, PAX_NAME, size, MODE_MEMBER, PAX_TAG, []);
    ChecksumHolds(PAX_NAME, size, MODE_MEMBER, PAX_TAG, []);
    BlockRun(w, b);
  }

  /** The overrides the pax block before an entry leaves. */
  function PaxFacts(path: seq<Byte>, link: seq<Byte>): Facts {
    Facts(if |path| > 100 then Some(path) else None, if |link| > 100 then Some(link) else None, None)
  }

  lemma PaxRun(w: Walk, path: seq<Byte>, link: seq<Byte>)
    requires Between(w) && |PaxRecords(path, link)| < Power8(11)
    ensures Run(w, PaxBytes(PaxRecords(path, link))) ==
            if |PaxRecords(path, link)| > OVERRIDE_MAX then None
            else Some(Ran(w.(overrides := Overrides(PaxFacts(path, link), [])), []))
  {
    hide Run, HeaderBlock, ReadPax, PaxRecords, Power8;
    var pax := PaxRecords(path, link);
    if pax == [] {
      NoPax(path, link);
      RunNothing(w);
    } else {
      PaxHeaderRun(w, |pax|);
      var mid := w.(state := InOverride(|pax|, Padding(|pax|), PaxNext));
      ThenQuiet(w, HeaderBlock(PAX_NAME, |pax|, MODE_MEMBER, PAX_TAG, []), pax + Zeros(Padding(|pax|)), mid);
      if |pax| > OVERRIDE_MAX {
        OverrideTooLong(mid, PaxNext, pax, Padding(|pax|), Zeros(Padding(|pax|)));
      } else {
        PaxReads(path, link);
        OverrideRun(mid, pax, PaxFacts(path, link));
      }
    }
  }

  lemma NoPax(path: seq<Byte>, link: seq<Byte>)
    requires PaxRecords(path, link) == []
    ensures PaxFacts(path, link) == NO_FACTS
  {
    hide RecordLen, Decimal;
  }

  // An item.

  /** A name as it comes back: whole through a pax record, otherwise as its header field keeps it. */
  function Seen(name: seq<Byte>): seq<Byte> {
    if |name| > 100 then name else CString(name)
  }

  function SeenEntry(item: Item, kind: Kind): TarEntry {
    TarEntry(Seen(item.path), kind, |item.data|, Some(ModeOf(item.kind)), Some(0))
  }

  /** Tags the writer's caller may give a device or another special file so that it reads back as one. */
  predicate SpecialTag(tag: Byte) {
    tag == 51 || tag == 52 || tag == 54
  }

  predicate GoodTag(kind: Kind) {
    kind.Other? ==> SpecialTag(kind.tag)
  }

  function SeenKind(kind: Kind): Kind {
    match kind
    case Symlink(target) => Symlink(Seen(target))
    case Hardlink(target) => Hardlink(Seen(target))
    case _ => kind
  }

  lemma TagReads(kind: Kind)
    requires GoodTag(kind)
    ensures KindOf(TagOf(kind), Seen(LinkOf(kind))) == Some(SeenKind(kind))
    ensures TagOf(kind) != 120 && TagOf(kind) != 88 && TagOf(kind) != 103 && TagOf(kind) != 76 && TagOf(kind) != 75 && TagOf(kind) != 83
  {
    hide CString;
  }

  /** The header of an item, after its pax block. */
  lemma EntryRun(w: Walk, item: Item)
    requires w.state == Header && w.block == [] && w.overrides == Overrides(PaxFacts(item.path, LinkOf(item.kind)), [])
    requires Printable(item) && GoodTag(item.kind)
    ensures Run(w, HeaderBlock(item.path, |item.data|, ModeOf(item.kind), TagOf(item.kind), LinkOf(item.kind))) ==
            Some(Ran(w.(state := if item.data == [] then Header else InData(|item.data|, Padding(|item.data|)),
                        overrides := Overrides(NO_FACTS, []), sawEntry := true),
                     [Opens(SeenEntry(item, SeenKind(item.kind)))]))
  {
    hide Run, HeaderBlock, Power8, ParseOctal, ChecksumMatches, BuildEntry, PaxRecords, KindOf, CString, Name;
    var size, mode, tag, link := |item.data|, ModeOf(item.kind), TagOf(item.kind), LinkOf(item.kind);
    var b := HeaderBlock(item.path, size, mode, tag, link);
    ModesFit();
    HeaderReads(w.overrides.facts, item.path, size, mode, tag, link);
    ChecksumHolds(item.path, size, mode, tag, link);
    BlockRun(w, b);
    if |item.path| <= 100 {
      KeptShort(item.path);
    }
    if |link| <= 100 {
      KeptShort(link);
    }
    TagReads(item.kind);
  }

  /** What comes back of an item. */
  function SeenReports(item: Item): seq<Report> {
    [Opens(SeenEntry(item, SeenKind(item.kind)))] + CarriesOf(item.data)
  }

  lemma ItemRun(w: Walk, item: Item)
    requires Between(w) && Printable(item) && GoodTag(item.kind)
    ensures Run(w, ItemBytes(item)) ==
            if |PaxRecords(item.path, LinkOf(item.kind))| > OVERRIDE_MAX then None
            else Some(Ran(w.(sawEntry := true), SeenReports(item)))
  {
    hide Run, HeaderBlock, Power8, PaxRecords, PaxBytes, CarriesOf, Seen;
    var link, size := LinkOf(item.kind), |item.data|;
    var pax := PaxBytes(PaxRecords(item.path, link));
    var header := HeaderBlock(item.path, size, ModeOf(item.kind), TagOf(item.kind), link);
    var payload := item.data + Zeros(Padding(size));
    Assoc(pax, header, payload);
    RunThen(w, pax, header + payload);
    PaxRun(w, item.path, link);
    if |PaxRecords(item.path, link)| <= OVERRIDE_MAX {
      var mid := w.(overrides := Overrides(PaxFacts(item.path, link), []));
      EntryRun(mid, item);
      RunThen(mid, header, payload);
      PaddingNone();
      PayloadRun(w.(state := AfterData(size, Padding(size)), sawEntry := true), item.data, Padding(size));
      assert [] + SeenReports(item) == SeenReports(item);
    }
  }

  function SeenAll(items: seq<Item>): seq<Report> {
    if items == [] then [] else SeenAll(items[..|items| - 1]) + SeenReports(items[|items| - 1])
  }

  /** An item the writer's format can carry: its printed fields read back. */
  predicate Carried(item: Item) {
    Printable(item) && GoodTag(item.kind) && |PaxRecords(item.path, LinkOf(item.kind))| <= OVERRIDE_MAX
  }

  lemma {:induction false} ItemsRun(items: seq<Item>)
    requires forall i :: 0 <= i < |items| ==> Carried(items[i])
    ensures Run(START, Items(items)) == Some(Ran(START.(sawEntry := items != []), SeenAll(items)))
  {
    hide Run, ItemBytes, SeenReports, Printable, PaxRecords, GoodTag;
    if items == [] {
      RunNothing(START);
    } else {
      var front, item := items[..|items| - 1], items[|items| - 1];
      ItemsRun(front);
      RunThen(START, Items(front), ItemBytes(item));
      ItemRun(START.(sawEntry := front != []), item);
    }
  }

  /** The end marker. */
  lemma EndRun(w: Walk)
    requires Between(w)
    ensures Run(w, Zeros(BLOCK) + Zeros(BLOCK)) == Some(Ran(w.(state := Ended), [Closes]))
  {
    hide Run, ChecksumMatches, ParseOctal;
    var zero := w.(state := FirstZero);
    BlockRun(w, Zeros(BLOCK));
    BlockRun(zero, Zeros(BLOCK));
    ThenQuiet(w, Zeros(BLOCK), Zeros(BLOCK), zero);
  }

  /** A walk over all of `bytes` that may finish, having reported exactly `reports`. */
  predicate Gives(bytes: seq<Byte>, reports: seq<Report>) {
    var r := Run(START, bytes);
    r.Some? && r.value.reports == reports && MayFinish(r.value.next)
  }

  lemma ArchiveRun(items: seq<Item>)
    requires forall i :: 0 <= i < |items| ==> Carried(items[i])
    ensures Gives(Archive(items), SeenAll(items) + [Closes])
  {
    hide Run, Items, Carried, SeenAll, Zeros;
    ItemsRun(items);
    RunThen(START, Items(items), Zeros(BLOCK) + Zeros(BLOCK));
    EndRun(START.(sawEntry := items != []));
  }

  /** So many zeros between entries: the first whole block of them is only remembered, the second ends the archive. */
  lemma ZerosRun(w: Walk, k: nat)
    requires Between(w) && k <= 2 * BLOCK
    ensures var end := if k < BLOCK then w.(block := Zeros(k))
                       else if k < 2 * BLOCK then w.(state := FirstZero, block := Zeros(k - BLOCK)) else w.(state := Ended);
            Run(w, Zeros(k)) == Some(Ran(end, if k == 2 * BLOCK then [Closes] else []))
  {
    hide Run, ChecksumMatches, ParseOctal;
    var zero := w.(state := FirstZero);
    if k < BLOCK {
      Collects(w, Zeros(BLOCK), k);
      assert Zeros(BLOCK)[..k] == Zeros(k);
    } else {
      assert Zeros(k) == Zeros(BLOCK) + Zeros(k - BLOCK);
      BlockRun(w, Zeros(BLOCK));
      if k < 2 * BLOCK {
        Collects(zero, Zeros(BLOCK), k - BLOCK);
        assert Zeros(BLOCK)[..k - BLOCK] == Zeros(k - BLOCK);
        ThenQuiet(w, Zeros(BLOCK), Zeros(k - BLOCK), zero);
      } else {
        EndRun(w);
      }
    }
  }

  /**
   * An archive that lacks some of its last zeros: what was in it comes back, and the walk may finish exactly when none or
   * one whole block of them is there and it holds an entry, or when both are.
   */
  lemma CutShort(items: seq<Item>, k: nat)
    requires (forall i :: 0 <= i < |items| ==> Carried(items[i])) && k <= 2 * BLOCK
    ensures var r := Run(START, Items(items) + Zeros(k));
            && r.Some? && r.value.reports == SeenAll(items) + (if k == 2 * BLOCK then [Closes] else [])
            && (MayFinish(r.value.next) <==> k == 2 * BLOCK || (items != [] && (k == 0 || k == BLOCK)))
  {
    hide Run, Items, Carried, SeenAll;
    ItemsRun(items);
    RunThen(START, Items(items), Zeros(k));
    ZerosRun(START.(sawEntry := items != []), k);
  }

  // What was asked for.

  /** An item as the writer was given it. */
  function ItemReports(item: Item): seq<Report> {
    [Opens(TarEntry(item.path, item.kind, |item.data|, Some(ModeOf(item.kind)), Some(0)))] + CarriesOf(item.data)
  }

  function AllReports(items: seq<Item>): seq<Report> {
    if items == [] then [] else AllReports(items[..|items| - 1]) + ItemReports(items[|items| - 1])
  }

  /** Short names hold no NUL, the pax block is within its bound, a special file's tag is one of the three known. */
  predicate Faithful(item: Item) {
    && (|item.path| <= 100 ==> NulFree(item.path)) && (|LinkOf(item.kind)| <= 100 ==> NulFree(LinkOf(item.kind)))
    && |PaxRecords(item.path, LinkOf(item.kind))| <= OVERRIDE_MAX && GoodTag(item.kind)
  }

  predicate NamesKept(item: Item) {
    (|item.path| <= 100 ==> NulFree(item.path)) && (|LinkOf(item.kind)| <= 100 ==> NulFree(LinkOf(item.kind)))
  }

  /** What comes back of an item is what was given exactly when its short names hold no NUL. */
  lemma SeenExactly(item: Item)
    ensures SeenReports(item) == ItemReports(item) <==> NamesKept(item)
    ensures !NamesKept(item) ==> SeenReports(item)[0] != ItemReports(item)[0]
  {
    hide CString, CarriesOf;
    CStringExactly(item.path);
    CStringExactly(LinkOf(item.kind));
    assert SeenReports(item)[0] == Opens(SeenEntry(item, SeenKind(item.kind)));
    assert ItemReports(item)[0] == Opens(TarEntry(item.path, item.kind, |item.data|, Some(ModeOf(item.kind)), Some(0)));
    assert SeenEntry(item, SeenKind(item.kind)).path == item.path && SeenKind(item.kind) == item.kind <==> NamesKept(item);
  }

  lemma {:induction false} FaithfulSeen(items: seq<Item>)
    requires forall i :: 0 <= i < |items| ==> Faithful(items[i])
    ensures SeenAll(items) == AllReports(items)
  {
    hide SeenReports, ItemReports;
    if items != [] {
      FaithfulSeen(items[..|items| - 1]);
      SeenExactly(items[|items| - 1]);
    }
  }

  /** Every entry list the header fields can hold, faithful throughout, comes back exactly, and then the end of the archive. */
  lemma RoundTrip(items: seq<Item>)
    requires forall i :: 0 <= i < |items| ==> Printable(items[i]) && Faithful(items[i])
    ensures Gives(Archive(items), AllReports(items) + [Closes])
  {
    hide Printable, Archive, PaxRecords, Run;
    ArchiveRun(items);
    FaithfulSeen(items);
  }

  // When some item is not faithful.

  lemma PrefixGives(x: seq<Byte>, y: seq<Byte>)
    requires Run(START, x + y).Some?
    ensures Run(START, x).Some? && Run(START, x).value.reports <= Run(START, x + y).value.reports
  {
    hide Run;
    RunThen(START, x, y);
  }

  lemma {:induction false} ItemsPrefix(items: seq<Item>, k: nat) returns (rest: seq<Byte>)
    requires k < |items|
    ensures Archive(items) == Items(items[..k]) + ItemBytes(items[k]) + rest
  {
    hide ItemBytes, Items;
    var whole := ItemsSplit(items, k);
    rest := whole + (Zeros(BLOCK) + Zeros(BLOCK));
  }

  lemma {:induction false} ItemsSplit(items: seq<Item>, k: nat) returns (rest: seq<Byte>)
    requires k < |items|
    ensures Items(items) == Items(items[..k]) + ItemBytes(items[k]) + rest
  {
    hide ItemBytes;
    var front := items[..|items| - 1];
    if k < |front| {
      assert front[..k] == items[..k];
      var r := ItemsSplit(front, k);
      rest := r + ItemBytes(items[|items| - 1]);
    } else {
      assert items[..k] == front;
      rest := [];
    }
  }

  lemma {:induction false} ReportsPrefix(items: seq<Item>, k: nat)
    requires k < |items|
    ensures AllReports(items[..k]) + ItemReports(items[k]) <= AllReports(items)
  {
    hide ItemReports;
    var front := items[..|items| - 1];
    if k < |front| {
      ReportsPrefix(front, k);
      assert front[..k] == items[..k];
    } else {
      assert items[..k] == front;
    }
  }

  /** The first unfaithful item, with a good tag: its pax block is refused, or its header gives back other names. */
  lemma UnfaithfulShows(items: seq<Item>, k: nat)
    requires k < |items| && (forall i :: 0 <= i < |items| ==> Printable(items[i]))
    requires !Faithful(items[k]) && GoodTag(items[k].kind) && forall i :: 0 <= i < k ==> Faithful(items[i])
    ensures !Gives(Archive(items), AllReports(items) + [Closes])
  {
    hide Run, Items, ItemBytes, Archive, Printable, SeenReports, ItemReports, PaxRecords, NulFree, GoodTag, AllReports, MayFinish;
    var front, item := items[..k], items[k];
    var rest := ItemsPrefix(items, k);
    ItemsRun(front);
    FaithfulSeen(front);
    RunThen(START, Items(front), ItemBytes(item));
    ItemRun(START.(sawEntry := front != []), item);
    SeenExactly(item);
    ReportsPrefix(items, k);
    SeenNonempty(item);
    var at := |AllReports(front)|;
    assert (AllReports(front) + SeenReports(item))[at] == SeenReports(item)[0];
    assert (AllReports(front) + ItemReports(item))[at] == ItemReports(item)[0];
    if Run(START, Archive(items)).Some? {
      PrefixGives(Items(front) + ItemBytes(item), rest);
    }
  }

  lemma SeenNonempty(item: Item)
    ensures SeenReports(item) != [] && ItemReports(item) != []
  {
  }

  /** The walker only ever reports special files of the three known tags. */
  predicate KnownTags(reports: seq<Report>) {
    forall i :: 0 <= i < |reports| && reports[i].Opens? ==> GoodTag(reports[i].entry.kind)
  }

  lemma StepTags(w: Walk, b: Byte)
    requires ValidWalk(w) && Consume(w, b).Go?
    ensures KnownTags(Reported(Consume(w, b).event, b))
  {
    hide ParseOctal, ChecksumMatches, AllZero, ReadPax, CString;
  }

  lemma {:induction false} RunTags(s: seq<Byte>)
    requires Run(START, s).Some?
    ensures KnownTags(Run(START, s).value.reports)
  {
    hide Consume, Reported, GoodTag;
    if s != [] {
      RunTags(s[..|s| - 1]);
      StepTags(Run(START, s[..|s| - 1]).value.next, s[|s| - 1]);
    }
  }

  lemma ReportedTag(items: seq<Item>, k: nat)
    requires k < |items| && KnownTags(AllReports(items) + [Closes])
    ensures GoodTag(items[k].kind)
  {
    hide GoodTag, CarriesOf;
    ReportsPrefix(items, k);
    var at, all := |AllReports(items[..k])|, AllReports(items) + [Closes];
    assert (AllReports(items[..k]) + ItemReports(items[k]))[at] == ItemReports(items[k])[0];
    assert all[at] == ItemReports(items[k])[0];
  }

  lemma BadTagShows(items: seq<Item>, k: nat)
    requires k < |items| && !GoodTag(items[k].kind)
    ensures !Gives(Archive(items), AllReports(items) + [Closes])
  {
    hide Run, Archive, GoodTag, AllReports, MayFinish, KnownTags;
    if Run(START, Archive(items)).Some? {
      RunTags(Archive(items));
      if KnownTags(AllReports(items) + [Closes]) {
        ReportedTag(items, k);
      }
    }
  }

  lemma {:induction false} FirstUnfaithful(items: seq<Item>, i: nat) returns (k: nat)
    requires i < |items| && !Faithful(items[i])
    ensures k < |items| && !Faithful(items[k]) && forall j :: 0 <= j < k ==> Faithful(items[j])
    decreases i
  {
    if j: nat :| j < i && !Faithful(items[j]) {
      k := FirstUnfaithful(items, j);
    } else {
      k := i;
    }
  }

  /** The round trip holds exactly for the faithful entry lists. */
  lemma RoundTripExactly(items: seq<Item>)
    requires forall i :: 0 <= i < |items| ==> Printable(items[i])
    ensures Gives(Archive(items), AllReports(items) + [Closes]) <==> forall i :: 0 <= i < |items| ==> Faithful(items[i])
  {
    hide Run, Archive, AllReports, Printable, GoodTag, NulFree, PaxRecords, Gives;
    if forall i :: 0 <= i < |items| ==> Faithful(items[i]) {
      RoundTrip(items);
    } else if forall i :: 0 <= i < |items| ==> GoodTag(items[i].kind) {
      var i: nat :| i < |items| && !Faithful(items[i]);
      var k := FirstUnfaithful(items, i);
      UnfaithfulShows(items, k);
    } else {
      var k: nat :| k < |items| && !GoodTag(items[k].kind);
      BadTagShows(items, k);
    }
  }

  // A pax size record overrides the header's size, but not its padding.

  /**
   * After a header whose size a pax record overrides, the walker takes the overriding number of bytes and then the
   * padding of the header's own size: the next header is block-aligned exactly when the two sizes agree modulo a block.
   */
  lemma OverriddenSizeAligns(w: Walk, block: seq<Byte>, typeflag: Byte, headerSize: nat, data: seq<Byte>)
    requires |block| == BLOCK && w.state == Header && w.block == [] && data != [] && w.overrides.facts.size == Some(|data|)
    requires KindOf(typeflag, []) == Some(Regular)
    ensures var step := OpenEntry(w, block, typeflag, headerSize, Padding(headerSize));
            var body := data + Zeros(Padding(headerSize));
            && step.Go?
            && Run(step.next, body) == Some(Ran(step.next.(state := Header), CarriesOf(data)))
            && (|body| % BLOCK == 0 <==> |data| % BLOCK == headerSize % BLOCK)
  {
    hide Run, CString, ParseOctal, CarriesOf;
    var step := OpenEntry(w, block, typeflag, headerSize, Padding(headerSize));
    PayloadRun(step.next, data, Padding(headerSize));
  }
}
