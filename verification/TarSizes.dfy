/** An entry whose size a pax record overrides, and what the walker then reads after it (src/decompose/tar.rs). */
module TarSizes {
  import opened Bytes
  import opened TarText
  import opened TarWalker
  import opened TarWriter
  import opened TarHeaders
  import opened TarRoundTrip

  function SizeRecord(n: nat): seq<Byte> {
    Record(SIZE, Decimal(n))
  }

  function Power10(k: nat): Pos {
    if k == 0 then 1 else 10 * Power10(k - 1)
  }

  lemma {:induction false} DecimalLen(n: nat, k: Pos)
    requires n < Power10(k)
    ensures |Decimal(n)| <= k
  {
    if n >= 10 {
      assert Power10(1) == 10;
      DecimalLen(n / 10, k - 1);
    }
  }

  lemma SixtyFourBits()
    ensures MAX64 < Power10(20)
  {
    assert Power10(4) == 10_000;
    assert Power10(8) == 10 * (10 * (10 * (10 * Power10(4))));
    assert Power10(12) == 10 * (10 * (10 * (10 * Power10(8))));
    assert Power10(16) == 10 * (10 * (10 * (10 * Power10(12))));
    assert Power10(20) == 10 * (10 * (10 * (10 * Power10(16))));
  }

  /** The record of any 64-bit size fits a pax block, and gives the size back. */
  lemma SizeReads(n: nat)
    requires n <= MAX64
    ensures 0 < |SizeRecord(n)| <= 56 && ReadPax(NO_FACTS, SizeRecord(n)) == Read(NO_FACTS.(size := Some(n)))
  {
    hide Decimal, ReadPax, ParseDecimal;
    SixtyFourBits();
    DecimalLen(n, 20);
    assert |SIZE| == 4 && SIZE != PATH;
    RecordReads(NO_FACTS, SIZE, Decimal(n), []);
    assert SizeRecord(n) + [] == SizeRecord(n);
    DecimalReads(n);
    NothingReads(NO_FACTS.(size := Some(n)));
  }

  /** A regular entry's pax size record and its header, which gives another size. */
  function SizedHeader(path: seq<Byte>, headerSize: nat, n: nat): seq<Byte> {
    PaxBytes(SizeRecord(n)) + HeaderBlock(path, headerSize, MODE_MEMBER, 48, [])
  }

  function SizedEntry(path: seq<Byte>, n: nat): TarEntry {
    TarEntry(CString(path), Regular, n, Some(MODE_MEMBER), Some(0))
  }

  /** What is reported of the entry. */
  function SizedReports(path: seq<Byte>, data: seq<Byte>): seq<Report> {
    [Opens(SizedEntry(path, |data|))] + CarriesOf(data)
  }

  predicate Sized(path: seq<Byte>, headerSize: nat, data: seq<Byte>) {
    |path| <= 100 && headerSize < Power8(11) && 0 < |data| <= MAX64
  }

  lemma SizePaxRun(w: Walk, n: nat)
    requires Between(w) && n <= MAX64
    ensures Run(w, PaxBytes(SizeRecord(n))) == Some(Ran(w.(overrides := Overrides(NO_FACTS.(size := Some(n)), [])), []))
  {
    hide Run, HeaderBlock, ReadPax, Record, Power8;
    var pax := SizeRecord(n);
    SizeReads(n);
    Powers();
    PaxHeaderRun(w, |pax|);
    var mid := w.(state := InOverride(|pax|, Padding(|pax|), PaxNext));
    OverrideRun(mid, pax, NO_FACTS.(size := Some(n)));
    ThenQuiet(w, HeaderBlock(PAX_NAME, |pax|, MODE_MEMBER, PAX_TAG, []), pax + Zeros(Padding(|pax|)), mid);
  }

  /** The header after the record opens an entry of the record's size, with the padding of its own. */
  lemma SizedHeaderRun(w: Walk, path: seq<Byte>, headerSize: nat, data: seq<Byte>)
    requires Between(w) && Sized(path, headerSize, data)
    ensures Run(w, SizedHeader(path, headerSize, |data|)) ==
            Some(Ran(w.(state := InData(|data|, Padding(headerSize)), sawEntry := true), [Opens(SizedEntry(path, |data|))]))
  {
    hide Run, HeaderBlock, Power8, ParseOctal, ChecksumMatches, BuildEntry, CString, Name, PaxBytes;
    var n := |data|;
    var b := HeaderBlock(path, headerSize, MODE_MEMBER, 48, []);
    SizePaxRun(w, n);
    var mid := w.(overrides := Overrides(NO_FACTS.(size := Some(n)), []));
    ModesFit();
    HeaderReads(mid.overrides.facts, path, headerSize, MODE_MEMBER, 48, []);
    ChecksumHolds(path, headerSize, MODE_MEMBER, 48, []);
    KeptShort(path);
    BlockRun(mid, b);
    ThenQuiet(w, PaxBytes(SizeRecord(n)), b, mid);
  }

  /** An archive's zeros after the data, when they are too few for the walker: it refuses the next byte that is not zero. */
  lemma PaddingShort(w: Walk, padding: nat, k: nat, rest: seq<Byte>)
    requires ValidWalk(w) && k < padding && w.state == AfterData(0, padding) && w.block == [] && rest != [] && rest[0] != 0
    ensures Run(w, Zeros(k) + rest).None?
  {
    hide Run, CollectHeader;
    PaddingRun(w, padding, k);
    var s := Zeros(k) + rest;
    assert Zeros(padding)[..k] == Zeros(k) == s[..k];
    RunStepQuiet(w, s, k, w.(state := AfterData(0, padding - k)));
    assert s == s[..k + 1] + s[k + 1..];
    RunThen(w, s[..k + 1], s[k + 1..]);
  }

  /** The data of such an entry, padded to a block as an archive is, and what comes after it. */
  lemma SizedDataRun(w: Walk, headerSize: nat, data: seq<Byte>, rest: seq<Byte>)
    requires ValidWalk(w) && w.block == [] && data != [] && w.state == InData(|data|, Padding(headerSize)) && rest != [] && rest[0] != 0
    ensures var own, due := Padding(|data|), Padding(headerSize);
            Run(w, data + Zeros(own) + rest) ==
            if own < due then None else Then(Some(Ran(w.(state := Header), CarriesOf(data))), Zeros(own - due) + rest)
  {
    hide Run, CarriesOf, Consume;
    var own, due := Padding(|data|), Padding(headerSize);
    Assoc(data, Zeros(own), rest);
    if own < due {
      DataRun(w, data, due, |data|);
      assert data[..|data|] == data;
      RunThen(w, data, Zeros(own) + rest);
      PaddingShort(w.(state := AfterData(0, due)), due, own, rest);
    } else {
      PayloadRun(w, data, due);
      var left := Zeros(own - due) + rest;
      assert data + (Zeros(own) + rest) == data + Zeros(due) + left;
      RunThen(w, data + Zeros(due), left);
    }
  }

  /**
   * What follows an entry whose size a pax record overrides, in an archive that pads it to a block: refused when the
   * header's own size needs more padding than the data, read from its first byte when it needs as much, and otherwise
   * read only after the zeros left over.
   */
  lemma FollowsSized(w: Walk, path: seq<Byte>, headerSize: nat, data: seq<Byte>, rest: seq<Byte>)
    requires Between(w) && Sized(path, headerSize, data) && rest != [] && rest[0] != 0
    ensures var own, due := Padding(|data|), Padding(headerSize);
            Run(w, SizedHeader(path, headerSize, |data|) + (data + Zeros(own) + rest)) ==
            if own < due then None else Then(Some(Ran(w.(sawEntry := true), SizedReports(path, data))), Zeros(own - due) + rest)
  {
    hide Run, CarriesOf, SizedHeader;
    var own, due := Padding(|data|), Padding(headerSize);
    SizedHeaderRun(w, path, headerSize, data);
    var mid := w.(state := InData(|data|, due), sawEntry := true);
    RunThen(w, SizedHeader(path, headerSize, |data|), data + Zeros(own) + rest);
    SizedDataRun(mid, headerSize, data, rest);
    var head := [Opens(SizedEntry(path, |data|))];
    if own >= due && Run(w.(sawEntry := true), Zeros(own - due) + rest).Some? {
      var last := Run(w.(sawEntry := true), Zeros(own - due) + rest).value.reports;
      assert head + (CarriesOf(data) + last) == head + CarriesOf(data) + last;
    }
  }

  /** Left-over zeros shift the next header: the block judged is not it, and past the checksum field it is refused. */
  lemma ShiftedRefused(w: Walk, d: nat, rest: seq<Byte>)
    requires Between(w) && 0 < d < BLOCK && BLOCK - d <= |rest| && rest[0] != 0
    requires d <= 148 ==> !ChecksumMatches(Zeros(d) + rest[..BLOCK - d])
    ensures Run(w, Zeros(d) + rest).None?
  {
    hide Run, Sum;
    var block := Zeros(d) + rest[..BLOCK - d];
    assert block[d] == rest[0];
    if d > 148 {
      assert block[148..156][0] == 0;
    }
    BlockRun(w, block);
    assert Zeros(d) + rest == block + rest[BLOCK - d..];
    RunThen(w, block, rest[BLOCK - d..]);
  }

  /** An entry with an overridden size, padded to a block, and another entry after it. */
  function Followed(path: seq<Byte>, headerSize: nat, data: seq<Byte>, item: Item): seq<Byte> {
    SizedHeader(path, headerSize, |data|) + (data + Zeros(Padding(|data|)) + ItemBytes(item))
  }

  /** Items whose bytes do not begin with a zero: all but those with no name, or one that begins with NUL. */
  predicate Named(item: Item) {
    item.path != [] && item.path[0] != 0
  }

  lemma NamedBegins(item: Item)
    requires Named(item)
    ensures |ItemBytes(item)| >= BLOCK && ItemBytes(item)[0] != 0
  {
    hide PaxRecords;
    var pax := PaxRecords(item.path, LinkOf(item.kind));
    var size, mode, tag, link := |item.data|, ModeOf(item.kind), TagOf(item.kind), LinkOf(item.kind);
    NameFirst(item.path, size, mode, tag, link);
    NameFirst(PAX_NAME, |pax|, MODE_MEMBER, PAX_TAG, []);
    FirstOf(HeaderBlock(item.path, size, mode, tag, link), item.path);
    FirstOf(HeaderBlock(PAX_NAME, |pax|, MODE_MEMBER, PAX_TAG, []), PAX_NAME);
  }

  lemma FirstOf(b: seq<Byte>, path: seq<Byte>)
    requires |b| == BLOCK && b[0..100] == Name(path, 100) && path != []
    ensures b[0] == path[0]
  {
    assert b[0] == b[0..100][0];
  }

  /** The block the walker judges after the entry, when zeros are left over. */
  function Shifted(item: Item, d: nat): (b: seq<Byte>)
    requires 0 < d <= 148 && |ItemBytes(item)| >= BLOCK
    ensures |b| == BLOCK
  {
    Zeros(d) + ItemBytes(item)[..BLOCK - d]
  }

  /** When the two sizes need the same padding, the next entry comes back like any other. */
  lemma AlignedNext(w: Walk, path: seq<Byte>, headerSize: nat, data: seq<Byte>, item: Item)
    requires Between(w) && Sized(path, headerSize, data) && Named(item) && Carried(item) && Padding(|data|) == Padding(headerSize)
    ensures Run(w, Followed(path, headerSize, data, item)) == Some(Ran(w.(sawEntry := true), SizedReports(path, data) + SeenReports(item)))
  {
    hide Run, SizedHeader, ItemBytes, SizedReports, SeenReports, Carried, Named, Padding;
    var next := ItemBytes(item);
    NamedBegins(item);
    FollowsSized(w, path, headerSize, data, next);
    assert Zeros(0) + next == next;
    NextRun(w.(sawEntry := true), item);
  }

  /** When they do not, the walk stops, short of a block that adds up by chance. */
  lemma MisalignedNext(w: Walk, path: seq<Byte>, headerSize: nat, data: seq<Byte>, item: Item)
    requires Between(w) && Sized(path, headerSize, data) && Named(item) && Padding(|data|) != Padding(headerSize)
    requires |ItemBytes(item)| >= BLOCK && Padding(|data|) < BLOCK
    requires var left := Padding(|data|) - Padding(headerSize); left < 0 || 148 < left || !ChecksumMatches(Shifted(item, left))
    ensures Run(w, Followed(path, headerSize, data, item)).None?
  {
    hide Run, SizedHeader, ItemBytes, SizedReports, ChecksumMatches, Shifted, Padding;
    NamedBegins(item);
    FollowsSized(w, path, headerSize, data, ItemBytes(item));
    if Padding(headerSize) < Padding(|data|) {
      ShiftedItem(w.(sawEntry := true), item, Padding(|data|) - Padding(headerSize));
    }
  }

  /**
   * The entry after one whose size a pax record overrides: when the two sizes agree modulo a block it comes back like any
   * other. When they do not, the walk stops: at its first byte if the header's size needs the more padding, and else at a
   * block that begins with the left-over zeros, unless that block's bytes happen to add up to a checksum among them.
   */
  lemma NextReadBack(w: Walk, path: seq<Byte>, headerSize: nat, data: seq<Byte>, item: Item)
    requires Between(w) && Sized(path, headerSize, data) && Named(item) && Carried(item)
    ensures |ItemBytes(item)| >= BLOCK
    ensures Padding(|data|) == Padding(headerSize) <==> |data| % BLOCK == headerSize % BLOCK
    ensures var left := Padding(|data|) - Padding(headerSize);
            var r := Run(w, Followed(path, headerSize, data, item));
            if left == 0 then
              r == Some(Ran(w.(sawEntry := true), SizedReports(path, data) + SeenReports(item)))
            else
              left < 0 || 148 < left || !ChecksumMatches(Shifted(item, left)) ==> r.None?
  {
    hide Run, Followed, ItemBytes, ChecksumMatches, SizedReports, SeenReports, Carried, Named, Shifted, Padding, Sized;
    var left := Padding(|data|) - Padding(headerSize);
    PaddingsAgree(|data|, headerSize);
    NamedBegins(item);
    if left == 0 {
      AlignedNext(w, path, headerSize, data, item);
    } else if left < 0 || 148 < left || !ChecksumMatches(Shifted(item, left)) {
      MisalignedNext(w, path, headerSize, data, item);
    }
  }

  lemma PaddingsAgree(a: nat, b: nat)
    ensures Padding(a) == Padding(b) <==> a % BLOCK == b % BLOCK
    ensures 0 <= Padding(a) < BLOCK && 0 <= Padding(b) < BLOCK
  {
  }

  lemma ShiftedItem(w: Walk, item: Item, d: nat)
    requires Between(w) && Named(item) && 0 < d < BLOCK && |ItemBytes(item)| >= BLOCK
    requires 148 < d || !ChecksumMatches(Shifted(item, d))
    ensures Run(w, Zeros(d) + ItemBytes(item)).None?
  {
    hide Run, ItemBytes, ChecksumMatches;
    NamedBegins(item);
    ShiftedRefused(w, d, ItemBytes(item));
  }

  lemma NextRun(w: Walk, item: Item)
    requires Between(w) && Carried(item)
    ensures Run(w, ItemBytes(item)) == Some(Ran(w.(sawEntry := true), SeenReports(item)))
  {
    hide Run, ItemBytes, SeenReports, PaxRecords, Printable;
    ItemRun(w, item);
  }

  const END: seq<Byte> := Zeros(BLOCK) + Zeros(BLOCK)

  lemma ExampleSizes(path: seq<Byte>, b: Byte)
    requires |path| <= 100
    ensures Sized(path, 0, [b]) && Sized(path, 1, [b]) && Padding(1) == 511 && Padding(0) == 0
  {
    Powers();
  }

  /** One byte of data behind a header that says none, its size being in the pax record: no archive that goes on with another entry is read. */
  lemma OneByteLost(path: seq<Byte>, b: Byte, item: Item)
    requires |path| <= 100 && Named(item) && Carried(item)
    ensures Run(START, Followed(path, 0, [b], item) + END).None?
  {
    hide Run, Followed, SeenReports, SizedReports, Carried, ChecksumMatches, Shifted, Named, END, Sized, Padding, Zeros, ItemBytes;
    ExampleSizes(path, b);
    NextReadBack(START, path, 0, [b], item);
    RunThen(START, Followed(path, 0, [b], item), END);
  }

  /** Behind a header that says one, all of it is. */
  lemma OneByteKept(path: seq<Byte>, b: Byte, item: Item)
    requires |path| <= 100 && Named(item) && Carried(item)
    ensures Gives(Followed(path, 1, [b], item) + END, SizedReports(path, [b]) + SeenReports(item) + [Closes])
  {
    hide Run, Followed, SeenReports, SizedReports, Carried, ChecksumMatches, Shifted, Named, Zeros, Sized, Padding, ItemBytes;
    ExampleSizes(path, b);
    NextReadBack(START, path, 1, [b], item);
    RunThen(START, Followed(path, 1, [b], item), END);
    EndRun(START.(sawEntry := true));
  }
}
