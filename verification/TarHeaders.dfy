/** Headers as any ustar or GNU writer prints them, and what the walker makes of each (src/decompose/tar.rs). */
module TarHeaders {
  import opened Bytes
  import opened TarText
  import opened TarWalker

  lemma PrefixField(b: seq<Byte>, a: seq<Byte>, x: seq<Byte>)
    requires a + x <= b
    ensures a <= b && b[|a|..|a| + |x|] == x
  {
  }

  lemma {:induction false} SumAppend(x: seq<Byte>, y: seq<Byte>)
    ensures Sum(x + y) == Sum(x) + Sum(y)
  {
    if y == [] {
      assert x + y == x;
    } else {
      assert (x + y)[..|x + y| - 1] == x + y[..|y| - 1];
      SumAppend(x, y[..|y| - 1]);
    }
  }

  lemma {:induction false} SumBound(s: seq<Byte>)
    ensures Sum(s) <= 255 * |s|
  {
    if s != [] {
      SumBound(s[..|s| - 1]);
    }
  }

  lemma Powers()
    ensures Power8(6) == 0x4_0000 && Power8(7) == 0x20_0000 && Power8(11) == 0x2_0000_0000
  {
    assert Power8(3) == 512;
    assert Power8(6) == 8 * (8 * (8 * Power8(3)));
    assert Power8(9) == 8 * (8 * (8 * Power8(6)));
    assert Power8(11) == 8 * (8 * Power8(9));
  }

  lemma SpacesCount(front: seq<Byte>, back: seq<Byte>)
    ensures Sum(front + SPACES + back) != 0
  {
    hide Sum;
    SumAppend(front + SPACES, back);
    SumAppend(front, SPACES);
    OneSpace();
  }

  lemma OneSpace()
    ensures Sum(SPACES) >= 32
  {
    assert SPACES == SPACES[..7] + [32];
  }

  // Headers.

  /** The fields of a header block, in its order: all that a writer may put into them. */
  datatype Ustar = Ustar(
    name: seq<Byte>, mode: nat, uid: nat, gid: nat, size: nat, mtime: nat, tag: Byte, link: seq<Byte>,
    magic: seq<Byte>, owners: seq<Byte>, prefix: seq<Byte>, rest: seq<Byte>)

  /** The names fit, and the fields the walker does not look at. */
  predicate Formed(u: Ustar) {
    |u.name| <= 100 && |u.link| <= 100 && |u.magic| == 5 && |u.owners| == 83 && |u.prefix| <= 155 && |u.rest| == 12
  }

  /** The octal numbers fit, too. */
  predicate Fits(u: Ustar) {
    && Formed(u)
    && u.mode < Power8(7) && u.uid < Power8(7) && u.gid < Power8(7) && u.size < Power8(11) && u.mtime < Power8(11)
  }

  function Leading(u: Ustar): (b: seq<Byte>)
    ensures |b| == 148
  {
    Name(u.name, 100) + OctalField(u.mode, 8) + OctalField(u.uid, 8) + OctalField(u.gid, 8) + OctalField(u.size, 12) + OctalField(u.mtime, 12)
  }

  function Trailing(u: Ustar): (b: seq<Byte>)
    requires Formed(u)
    ensures |b| == 356
  {
    [u.tag] + Name(u.link, 100) + u.magic + u.owners + Name(u.prefix, 155) + u.rest
  }

  function UstarSum(u: Ustar): nat
    requires Formed(u)
  {
    Sum(Leading(u) + SPACES + Trailing(u))
  }

  function Print(u: Ustar): (b: seq<Byte>)
    requires Formed(u)
    ensures |b| == BLOCK
  {
    Leading(u) + (Octal(UstarSum(u), 6) + [0, SPACE]) + Trailing(u)
  }

  // Reading the fields back.

  lemma LeadingReads(u: Ustar)
    ensures var b := Leading(u);
            && b[0..100] == Name(u.name, 100) && b[100..108] == OctalField(u.mode, 8) && b[124..136] == OctalField(u.size, 12)
            && b[136..148] == OctalField(u.mtime, 12)
  {
    hide OctalField, Name;
    var b := Leading(u);
    var a1 := Name(u.name, 100);
    var a2 := a1 + OctalField(u.mode, 8);
    var a3 := a2 + OctalField(u.uid, 8);
    var a4 := a3 + OctalField(u.gid, 8);
    var a5 := a4 + OctalField(u.size, 12);
    var a6 := a5 + OctalField(u.mtime, 12);
    assert b == a6;
    PrefixField(b, a5, OctalField(u.mtime, 12));
    PrefixField(b, a4, OctalField(u.size, 12));
    PrefixField(b, a3, OctalField(u.gid, 8));
    PrefixField(b, a2, OctalField(u.uid, 8));
    PrefixField(b, a1, OctalField(u.mode, 8));
    assert b[0..100] == a1;
  }

  lemma TrailingReads(u: Ustar)
    requires Formed(u)
    ensures var b := Trailing(u);
            b[0] == u.tag && b[1..101] == Name(u.link, 100) && b[101..106] == u.magic && b[189..344] == Name(u.prefix, 155)
  {
    hide Name;
    var b := Trailing(u);
    var a1 := [u.tag];
    var a2 := a1 + Name(u.link, 100);
    var a3 := a2 + u.magic;
    var a4 := a3 + u.owners;
    var a5 := a4 + Name(u.prefix, 155);
    assert b == a5 + u.rest;
    PrefixField(b, a4, Name(u.prefix, 155));
    PrefixField(b, a3, u.owners);
    PrefixField(b, a2, u.magic);
    PrefixField(b, a1, Name(u.link, 100));
  }

  lemma FieldsRead(u: Ustar)
    requires Formed(u)
    ensures var b := Print(u);
            && b[0..100] == Name(u.name, 100) && b[100..108] == OctalField(u.mode, 8) && b[124..136] == OctalField(u.size, 12)
            && b[136..148] == OctalField(u.mtime, 12) && b[156] == u.tag && b[157..257] == Name(u.link, 100)
            && b[257..262] == u.magic && b[345..500] == Name(u.prefix, 155)
  {
    hide OctalField, Name, Octal, UstarSum, Leading, Trailing;
    var b, front, back := Print(u), Leading(u), Trailing(u);
    LeadingReads(u);
    TrailingReads(u);
    assert b[..148] == front && b[156..] == back;
    assert b[0..100] == front[0..100] && b[100..108] == front[100..108] && b[124..136] == front[124..136] && b[136..148] == front[136..148];
    assert b[157..257] == back[1..101] && b[257..262] == back[101..106] && b[345..500] == back[189..344];
  }

  /** Whatever the fields, the block is let through: its checksum is right, and it is not all zero. */
  lemma PrintedMatches(u: Ustar)
    requires Formed(u)
    ensures ChecksumMatches(Print(u)) && !AllZero(Print(u))
  {
    hide Octal, ParseOctal, Sum, Power8, Leading, Trailing;
    var b, sum, front, back := Print(u), UstarSum(u), Leading(u), Trailing(u);
    assert b[..148] == front && b[156..BLOCK] == back && b[148..156] == Octal(sum, 6) + [0, SPACE];
    SumBound(front + SPACES + back);
    Powers();
    assert Octal(sum, 6) + [0, SPACE] == Octal(sum, 6) + [0] + [SPACE];
    OctalReads(sum, 6, [SPACE]);
    SpacesCount(front, back);
    assert b[155] == SPACE;
  }

  lemma NumbersBack(u: Ustar)
    requires Fits(u)
    ensures ParseOctal(OctalField(u.size, 12)) == Some(u.size) && ParseOctal(OctalField(u.mtime, 12)) == Some(u.mtime)
    ensures ParseOctal(OctalField(u.mode, 8)) == Some(u.mode) && u.mode <= MAX32
  {
    hide Octal, ParseOctal, Power8;
    Powers();
    assert OctalField(u.size, 12) == Octal(u.size, 11) + [0] + [] && OctalField(u.mode, 8) == Octal(u.mode, 7) + [0] + [];
    assert OctalField(u.mtime, 12) == Octal(u.mtime, 11) + [0] + [];
    OctalReads(u.size, 11, []);
    OctalReads(u.mode, 7, []);
    OctalReads(u.mtime, 11, []);
  }

  // What a header means.

  const MAGIC: seq<Byte> := [117, 115, 116, 97, 114]

  /** The path a header gives: its prefix, a slash and its name, when it has a prefix and the ustar magic; else its name. */
  function PathOf(u: Ustar): seq<Byte> {
    if CString(u.prefix) != [] && u.magic == MAGIC then CString(u.prefix) + [47] + CString(u.name) else CString(u.name)
  }

  /** The kinds of entries by the letter in the header; nothing for any other letter. */
  function KindBy(letter: char, link: seq<Byte>): Option<Kind> {
    match letter
    case '0' => Some(Regular)
    case '\0' => Some(Regular)
    case '7' => Some(Regular)
    case '5' => Some(Directory)
    case '2' => Some(Symlink(link))
    case '1' => Some(Hardlink(link))
    case '3' => Some(Other('3' as int))
    case '4' => Some(Other('4' as int))
    case '6' => Some(Other('6' as int))
    case _ => None
  }

  /** Letters of headers that are not entries: overrides, and sparse members, which are refused. */
  function OverrideBy(letter: char): Option<OverrideKind> {
    match letter
    case 'x' => Some(PaxNext)
    case 'X' => Some(PaxNext)
    case 'g' => Some(PaxGlobal)
    case 'L' => Some(GnuName)
    case 'K' => Some(GnuLink)
    case _ => None
  }

  lemma KindsAgree(tag: Byte, link: seq<Byte>)
    ensures KindBy(tag as char, link) == KindOf(tag, link)
    ensures (OverrideBy(tag as char) == Some(PaxNext) <==> tag == 120 || tag == 88) && (OverrideBy(tag as char) == Some(PaxGlobal) <==> tag == 103)
    ensures (OverrideBy(tag as char) == Some(GnuName) <==> tag == 76) && (OverrideBy(tag as char) == Some(GnuLink) <==> tag == 75)
    ensures OverrideBy(tag as char).Some? || tag == 83 ==> KindOf(tag, link).None?
  {
  }

  /** The entry a header gives; pending overrides of path, link target and size come first. */
  function EntryOf(facts: Facts, u: Ustar): Option<TarEntry> {
    match KindBy(u.tag as char, if facts.link.Some? then facts.link.value else CString(u.link))
    case None => None
    case Some(kind) =>
      Some(TarEntry(if facts.path.Some? then facts.path.value else PathOf(u), kind,
                    if facts.size.Some? then facts.size.value else u.size, Some(u.mode), Some(u.mtime)))
  }

  lemma BuildsEntry(facts: Facts, u: Ustar)
    requires Fits(u)
    ensures BuildEntry(facts, Print(u), u.tag, u.size) == EntryOf(facts, u)
  {
    hide Octal, ParseOctal, Print, CString, Name, Power8, KindOf, KindBy;
    FieldsRead(u);
    NumbersBack(u);
    NameReads(u.name, 100);
    NameReads(u.link, 100);
    NameReads(u.prefix, 155);
    KindsAgree(u.tag, if facts.link.Some? then facts.link.value else CString(u.link));
  }

  /** What a header leads to: an override's payload, an entry, or a refusal. */
  function Outcome(w: Walk, u: Ustar): Option<Ran> {
    var overriding := OverrideBy(u.tag as char);
    var entry := EntryOf(w.overrides.facts, u);
    if overriding.Some? then
      Some(Ran(w.(state := if u.size == 0 then Header else InOverride(u.size, Padding(u.size), overriding.value),
                  overrides := Overrides(w.overrides.facts, [])), []))
    else if entry.None? || (!entry.value.kind.Regular? && u.size > 0) then None
    else
      Some(Ran(w.(state := if entry.value.kind.Regular? && entry.value.size > 0 then InData(entry.value.size, Padding(u.size)) else Header,
                  overrides := w.overrides.(facts := NO_FACTS), sawEntry := true), [Opens(entry.value)]))
  }

  // Runs over blocks.

  lemma {:induction false} Collects(w: Walk, block: seq<Byte>, k: nat)
    requires ValidWalk(w) && (w.state.Header? || w.state.FirstZero?) && w.block == [] && k < BLOCK && k <= |block|
    ensures Run(w, block[..k]) == Some(Ran(w.(block := block[..k]), []))
  {
    hide Run, CloseHeader;
    if k == 0 {
      RunNothing(w);
      assert block[..0] == [];
    } else {
      Collects(w, block, k - 1);
      RunStepQuiet(w, block, k - 1, w.(block := block[..k - 1]));
      assert block[..k - 1] + [block[k - 1]] == block[..k];
    }
  }

  lemma BlockRun(w: Walk, block: seq<Byte>)
    requires ValidWalk(w) && (w.state.Header? || w.state.FirstZero?) && w.block == [] && |block| == BLOCK
    ensures Run(w, block) == Landed(CloseHeader(w, block), block[BLOCK - 1])
  {
    hide Run, CloseHeader;
    Collects(w, block, BLOCK - 1);
    RunStepQuiet(w, block, BLOCK - 1, w.(block := block[..BLOCK - 1]));
    assert block[..BLOCK] == block;
    CollectLast(w, block);
  }

  lemma CollectLast(w: Walk, block: seq<Byte>)
    requires ValidWalk(w) && (w.state.Header? || w.state.FirstZero?) && w.block == [] && |block| == BLOCK
    ensures Consume(w.(block := block[..BLOCK - 1]), block[BLOCK - 1]) == CloseHeader(w, block)
  {
    hide CloseHeader;
    assert block[..BLOCK - 1] + [block[BLOCK - 1]] == block;
    assert w.(block := block[..BLOCK - 1]).(block := []) == w;
  }

  /** Between entries, whatever is pending. */
  predicate Pending(w: Walk) {
    w.state == Header && w.block == []
  }

  /**
   * Over any header block whose fields fit the walker does what its letter says: the payload of an override comes next,
   * or an entry is opened with the path, kind, size, mode and time the header and the pending overrides give, or it stops.
   */
  lemma HeaderRun(w: Walk, u: Ustar)
    requires Pending(w) && Fits(u)
    ensures Run(w, Print(u)) == Outcome(w, u)
  {
    hide Run, Print, ChecksumMatches, ParseOctal, BuildEntry, EntryOf, Octal, Power8, KindOf, KindBy;
    var b := Print(u);
    PrintedMatches(u);
    FieldsRead(u);
    NumbersBack(u);
    BuildsEntry(w.overrides.facts, u);
    NoKind(w.overrides.facts, u);
    KindsAgree(u.tag, []);
    BlockRun(w, b);
  }

  lemma NoKind(facts: Facts, u: Ustar)
    ensures EntryOf(facts, u).None? <==> KindBy(u.tag as char, []).None?
  {
  }

  /** A path split between prefix and name is joined again; without the magic the name alone is the path. */
  lemma SplitPath(w: Walk, u: Ustar)
    requires Pending(w) && w.overrides.facts == NO_FACTS && Fits(u) && u.tag == 48
    requires u.name != [] && u.prefix != [] && NulFree(u.name) && NulFree(u.prefix)
    ensures var path := if u.magic == MAGIC then u.prefix + [47] + u.name else u.name;
            Run(w, Print(u)) ==
            Some(Ran(w.(state := if u.size > 0 then InData(u.size, Padding(u.size)) else Header, overrides := w.overrides.(facts := NO_FACTS),
                        sawEntry := true),
                     [Opens(TarEntry(path, Regular, u.size, Some(u.mode), Some(u.mtime)))]))
  {
    hide Run, Print, CString, Fits;
    HeaderRun(w, u);
    CStringExactly(u.name);
    CStringExactly(u.prefix);
  }

  // Overrides.

  function WithBuffer(w: Walk, state: State, buffer: seq<Byte>): Walk {
    w.(state := state, overrides := w.overrides.(buffer := buffer))
  }

  lemma {:induction false} OverrideCollects(w: Walk, kind: OverrideKind, payload: seq<Byte>, padding: nat, k: nat)
    requires w.state == InOverride(|payload|, padding, kind) && w.block == [] && w.overrides.buffer == []
    requires k <= |payload| && k <= OVERRIDE_MAX && (k == |payload| ==> padding > 0) && (|payload| > 0 || padding > 0)
    ensures Run(w, payload[..k]) == Some(Ran(WithBuffer(w, InOverride(|payload| - k, padding, kind), payload[..k]), []))
  {
    hide Run, CollectHeader, ApplyOverride;
    if k == 0 {
      RunNothing(w);
      assert payload[..0] == [];
    } else {
      OverrideCollects(w, kind, payload, padding, k - 1);
      RunStepQuiet(w, payload, k - 1, WithBuffer(w, InOverride(|payload| - k + 1, padding, kind), payload[..k - 1]));
      assert payload[..k - 1] + [payload[k - 1]] == payload[..k];
    }
  }

  lemma {:induction false} OverridePads(w: Walk, kind: OverrideKind, padding: nat, k: nat)
    requires w.state == InOverride(0, padding, kind) && w.block == [] && k < padding
    ensures Run(w, Zeros(padding)[..k]) == Some(Ran(w.(state := InOverride(0, padding - k, kind)), []))
  {
    hide Run, CollectHeader, ApplyOverride;
    if k == 0 {
      RunNothing(w);
      assert Zeros(padding)[..0] == [];
    } else {
      OverridePads(w, kind, padding, k - 1);
      RunStepQuiet(w, Zeros(padding), k - 1, w.(state := InOverride(0, padding - k + 1, kind)));
    }
  }

  /** Without padding, an override's payload is applied with its last byte. */
  lemma OverrideFills(w: Walk, kind: OverrideKind, payload: seq<Byte>)
    requires w.state == InOverride(|payload|, 0, kind) && w.block == [] && w.overrides.buffer == []
    requires 0 < |payload| <= OVERRIDE_MAX
    ensures Run(w, payload) == Landed(ApplyOverride(WithBuffer(w, Header, payload), kind), 0)
  {
    hide Run, CollectHeader, ApplyOverride;
    var n := |payload|;
    OverrideCollects(w, kind, payload, 0, n - 1);
    RunStepQuiet(w, payload, n - 1, WithBuffer(w, InOverride(1, 0, kind), payload[..n - 1]));
    assert payload[..n] == payload == payload[..n - 1] + [payload[n - 1]];
    Silent(WithBuffer(w, Header, payload), kind, payload[n - 1]);
  }

  /** With padding, it is applied with the last byte of that. */
  lemma OverridePadded(w: Walk, kind: OverrideKind, payload: seq<Byte>, padding: nat)
    requires w.state == InOverride(|payload|, padding, kind) && w.block == [] && w.overrides.buffer == []
    requires 0 < |payload| <= OVERRIDE_MAX && 0 < padding
    ensures Run(w, payload + Zeros(padding)) == Landed(ApplyOverride(WithBuffer(w, Header, payload), kind), 0)
  {
    hide Run, CollectHeader, ApplyOverride;
    OverrideCollects(w, kind, payload, padding, |payload|);
    assert payload[..|payload|] == payload;
    var mid := WithBuffer(w, InOverride(0, padding, kind), payload);
    OverridePads(mid, kind, padding, padding - 1);
    RunStepQuiet(mid, Zeros(padding), padding - 1, mid.(state := InOverride(0, 1, kind)));
    assert Zeros(padding)[..padding] == Zeros(padding);
    ThenQuiet(w, payload, Zeros(padding), mid);
  }

  /** An override's payload within the bound is applied once its padding is in. */
  lemma OverrideApplies(w: Walk, kind: OverrideKind, payload: seq<Byte>)
    requires w.state == InOverride(|payload|, Padding(|payload|), kind) && w.block == [] && w.overrides.buffer == []
    requires 0 < |payload| <= OVERRIDE_MAX
    ensures Run(w, payload + Zeros(Padding(|payload|))) == Landed(ApplyOverride(WithBuffer(w, Header, payload), kind), 0)
  {
    hide Run, ApplyOverride, Padding, WithBuffer;
    if Padding(|payload|) == 0 {
      OverrideFills(w, kind, payload);
      assert payload + Zeros(0) == payload;
    } else {
      OverridePadded(w, kind, payload, Padding(|payload|));
    }
  }

  /** Applying an override reports nothing. */
  lemma Silent(w: Walk, kind: OverrideKind, b: Byte)
    ensures Landed(ApplyOverride(w, kind), b) == Landed(ApplyOverride(w, kind), 0)
  {
    hide ReadPax, CString;
  }

  /** A pax payload within the bound is applied once its padding is in. */
  lemma OverrideRun(w: Walk, pax: seq<Byte>, facts: Facts)
    requires w.state == InOverride(|pax|, Padding(|pax|), PaxNext) && w.block == [] && w.overrides.buffer == []
    requires 0 < |pax| <= OVERRIDE_MAX && ReadPax(w.overrides.facts, pax) == Read(facts)
    ensures Run(w, pax + Zeros(Padding(|pax|))) == Some(Ran(w.(state := Header, overrides := Overrides(facts, [])), []))
  {
    hide Run, ReadPax, Padding;
    OverrideApplies(w, PaxNext, pax);
  }

  /** An override's payload past the bound is refused. */
  lemma OverrideTooLong(w: Walk, kind: OverrideKind, payload: seq<Byte>, padding: nat, rest: seq<Byte>)
    requires w.state == InOverride(|payload|, padding, kind) && w.block == [] && w.overrides.buffer == []
    requires OVERRIDE_MAX < |payload|
    ensures Run(w, payload + rest) == None
  {
    hide Run, CollectHeader;
    OverrideCollects(w, kind, payload, padding, OVERRIDE_MAX);
    RunStep(w, payload, OVERRIDE_MAX);
    assert payload + rest == payload[..OVERRIDE_MAX + 1] + (payload[OVERRIDE_MAX + 1..] + rest);
    RunThen(w, payload[..OVERRIDE_MAX + 1], payload[OVERRIDE_MAX + 1..] + rest);
  }

  /** What an override's payload does to what is pending; nothing when a pax record in it is wrong. */
  function Overridden(facts: Facts, kind: OverrideKind, payload: seq<Byte>): Option<Facts> {
    match kind
    case PaxGlobal => Some(facts)
    case GnuName => Some(facts.(path := Some(CString(payload))))
    case GnuLink => Some(facts.(link := Some(CString(payload))))
    case PaxNext =>
      match ReadPax(facts, payload)
      case Wrong(_) => None
      case Read(next) => Some(next)
  }

  lemma PaddingNone()
    ensures Padding(0) == 0
  {
  }

  /** A whole override: its header, its payload, the padding. */
  lemma OverrideRuns(w: Walk, u: Ustar, payload: seq<Byte>)
    requires Pending(w) && Fits(u) && OverrideBy(u.tag as char).Some? && u.size == |payload|
    ensures var facts := Overridden(w.overrides.facts, OverrideBy(u.tag as char).value, payload);
            Run(w, Print(u) + (payload + Zeros(Padding(|payload|)))) ==
            if payload == [] then Some(Ran(w.(overrides := Overrides(w.overrides.facts, [])), []))
            else if |payload| > OVERRIDE_MAX || facts.None? then None
            else Some(Ran(w.(overrides := Overrides(facts.value, [])), []))
  {
    hide Run, Print, ReadPax, CString, OverrideBy, EntryOf, Overridden, ApplyOverride, Padding;
    PaddingNone();
    var kind := OverrideBy(u.tag as char).value;
    HeaderRun(w, u);
    var mid := Run(w, Print(u)).value.next;
    ThenQuiet(w, Print(u), payload + Zeros(Padding(|payload|)), mid);
    if payload == [] {
      assert payload + Zeros(0) == [];
      RunNothing(mid);
    } else if |payload| > OVERRIDE_MAX {
      OverrideTooLong(mid, kind, payload, Padding(|payload|), Zeros(Padding(|payload|)));
    } else {
      OverrideApplies(mid, kind, payload);
      AppliesAs(mid, kind, payload);
    }
  }

  lemma AppliesAs(w: Walk, kind: OverrideKind, payload: seq<Byte>)
    ensures Landed(ApplyOverride(WithBuffer(w, Header, payload), kind), 0) ==
            match Overridden(w.overrides.facts, kind, payload)
            case None => None
            case Some(facts) => Some(Ran(w.(state := Header, overrides := Overrides(facts, [])), []))
  {
    hide ReadPax, CString;
  }

  /** A record of any other key changes nothing. */
  lemma OtherKeys(facts: Facts, key: seq<Byte>, value: seq<Byte>, rest: seq<Byte>)
    requires EQUALS !in key && RecordLen(key, value) <= MAX64
    requires key != [112, 97, 116, 104] && key != [108, 105, 110, 107, 112, 97, 116, 104] && key != [115, 105, 122, 101]
    ensures ReadPax(facts, Record(key, value) + rest) == ReadPax(facts, rest)
  {
    hide ReadPax, Record, RecordLen;
    RecordReads(facts, key, value, rest);
  }

  /** A block that is not zero and has another checksum, or no size, is refused. */
  lemma UnfitRefused(w: Walk, block: seq<Byte>)
    requires Pending(w) && |block| == BLOCK && !AllZero(block)
    requires ParseOctal(block[148..156]) != Some(Sum(block[..148] + SPACES + block[156..])) || ParseOctal(block[124..136]).None?
    ensures Run(w, block).None?
  {
    hide Run, ParseOctal, Sum;
    assert block[156..] == block[156..BLOCK];
    BlockRun(w, block);
  }

  // The end of an archive.

  /** After one zero block, only another ends the archive; any other block is refused. */
  lemma LoneZeroBlock(w: Walk, block: seq<Byte>)
    requires Pending(w) && |block| == BLOCK
    ensures Run(w, Zeros(BLOCK) + block) == if AllZero(block) then Some(Ran(w.(state := Ended), [Closes])) else None
  {
    hide Run, ChecksumMatches, ParseOctal;
    var zero := w.(state := FirstZero);
    BlockRun(w, Zeros(BLOCK));
    ThenQuiet(w, Zeros(BLOCK), block, zero);
    BlockRun(zero, block);
  }

  /** After the end only zeros may follow, any number of them. */
  lemma {:induction false} AfterEnd(w: Walk, s: seq<Byte>)
    requires w.state == Ended && w.block == []
    ensures Run(w, s) == if AllZero(s) then Some(Ran(w, [])) else None
  {
    hide Consume, Run;
    if s == [] {
      RunNothing(w);
    } else {
      var front, b := s[..|s| - 1], s[|s| - 1];
      AfterEnd(w, front);
      EndedStep(w, b);
      RunStep(w, s, |front|);
      assert s[..|front| + 1] == s;
      assert s[..|front|] == front && [] + Reported(Nothing, b) == [];
      assert AllZero(s) <==> AllZero(front) && b == 0 by {
        assert forall i :: 0 <= i < |s| ==> s[i] == if i < |front| then front[i] else b;
      }
    }
  }

  lemma EndedStep(w: Walk, b: Byte)
    requires w.state == Ended && w.block == []
    ensures Consume(w, b) == if b != 0 then Stop(AfterEndMarker) else Go(w, Nothing)
  {
  }
}
