/** The forward-only TAR walker: ustar headers, pax and GNU overrides (src/decompose/tar.rs). */
module TarWalker {
  import opened Bytes
  import opened TarText

  const BLOCK: nat := 512
  const OVERRIDE_MAX: nat := 0x4000
  const MAX32: nat := 0xFFFF_FFFF

  datatype Fault =
    | Truncated
    | NonzeroPadding
    | AfterEndMarker
    | LoneZeroBlock
    | ChecksumMismatch
    | SizeNotOctal
    | SparseMember
    | PayloadOnMetadata
    | UnknownEntryType
    | MetadataOverBound
    | BadPax(pax: PaxFault)

  datatype Kind = Regular | Directory | Symlink(target: seq<Byte>) | Hardlink(target: seq<Byte>) | Other(tag: Byte)
  datatype TarEntry = TarEntry(path: seq<Byte>, kind: Kind, size: nat, mode: Option<nat>, mtime: Option<nat>)

  datatype Event = Nothing | Entry(entry: TarEntry) | Data(len: nat) | End

  datatype OverrideKind = PaxNext | PaxGlobal | GnuName | GnuLink

  datatype State =
    | Header
    | InData(remaining: nat, padding: nat)
    | InOverride(left: nat, pad: nat, kind: OverrideKind)
    | FirstZero
    | Ended

  /** Pending overrides for the next entry, and the override payload collected so far. */
  datatype Overrides = Overrides(facts: Facts, buffer: seq<Byte>)

  const NO_FACTS := Facts(None, None, None)

  // The walker on values.

  datatype Walk = Walk(state: State, block: seq<Byte>, overrides: Overrides, sawEntry: bool)
  datatype Step = Go(next: Walk, event: Event) | Stop(fault: Fault)

  const START := Walk(Header, [], Overrides(NO_FACTS, []), false)

  predicate ValidWalk(w: Walk) {
    && (w.state.Header? || w.state.FirstZero? ==> |w.block| < BLOCK)
    && (!w.state.Header? && !w.state.FirstZero? ==> w.block == [])
    && (w.state.InData? ==> w.state.remaining > 0 || w.state.padding > 0)
    && (w.state.InOverride? ==> w.state.left > 0 || w.state.pad > 0)
  }

  predicate MayFinish(w: Walk) {
    w.state.Ended? || ((w.state.Header? || w.state.FirstZero?) && w.sawEntry && w.block == [])
  }

  const SPACES: seq<Byte> := [32, 32, 32, 32, 32, 32, 32, 32]

  function Sum(s: seq<Byte>): nat {
    if s == [] then 0 else Sum(s[..|s| - 1]) + s[|s| - 1]
  }

  /** The header checksum: every byte, with the checksum field read as spaces. */
  function Checksum(block: seq<Byte>): nat
    requires |block| >= BLOCK
  {
    Sum(block[..148] + SPACES + block[156..BLOCK])
  }

  predicate ChecksumMatches(block: seq<Byte>) {
    |block| >= BLOCK && ParseOctal(block[148..156]) == Some(Checksum(block)) && Checksum(block) != 0
  }

  method CheckBlock(block: seq<Byte>) returns (ok: bool)
    ensures ok == ChecksumMatches(block)
  {
    if |block| < BLOCK {
      return false;
    }
    var declared := ReadOctal(block[148..156]);
    if declared.None? {
      return false;
    }
    var sum := 0;
    ghost var seen := block[..148] + SPACES + block[156..BLOCK];
    for i := 0 to BLOCK
      invariant sum == Sum(seen[..i])
    {
      assert seen[..i + 1][..i] == seen[..i];
      sum := sum + if 148 <= i < 156 then SPACE else block[i];
    }
    assert seen[..BLOCK] == seen;
    ok := sum == declared.value && sum != 0;
  }

  function Padding(size: nat): nat {
    (BLOCK - size % BLOCK) % BLOCK
  }

  predicate AllZero(block: seq<Byte>) {
    forall i :: 0 <= i < |block| ==> block[i] == 0
  }

  const USTAR: seq<Byte> := [117, 115, 116, 97, 114]

  /** The path a header gives, without an override: name, after prefix and slash where there is one. */
  function HeaderPath(block: seq<Byte>): seq<Byte>
    requires |block| == BLOCK
  {
    var path, prefix := CString(block[0..100]), CString(block[345..500]);
    if prefix != [] && block[257..262] == USTAR then prefix + [47] + path else path
  }

  function KindOf(typeflag: Byte, link: seq<Byte>): Option<Kind> {
    if typeflag == 48 || typeflag == 0 || typeflag == 55 then Some(Regular)
    else if typeflag == 53 then Some(Directory)
    else if typeflag == 50 then Some(Symlink(link))
    else if typeflag == 49 then Some(Hardlink(link))
    else if typeflag == 51 || typeflag == 52 || typeflag == 54 then Some(Other(typeflag))
    else None
  }

  function Mode(block: seq<Byte>): Option<nat>
    requires |block| == BLOCK
  {
    var mode := ParseOctal(block[100..108]);
    if mode.Some? && mode.value <= MAX32 then mode else None
  }

  function BuildEntry(facts: Facts, block: seq<Byte>, typeflag: Byte, headerSize: nat): Option<TarEntry>
    requires |block| == BLOCK
  {
    var path := if facts.path.Some? then facts.path.value else HeaderPath(block);
    var link := if facts.link.Some? then facts.link.value else CString(block[157..257]);
    var size := if facts.size.Some? then facts.size.value else headerSize;
    match KindOf(typeflag, link)
    case None => None
    case Some(kind) => Some(TarEntry(path, kind, size, Mode(block), ParseOctal(block[136..148])))
  }

  function BeginOverride(w: Walk, size: nat, padding: nat, kind: OverrideKind): Step {
    var cleared := w.(overrides := w.overrides.(buffer := []));
    Go(cleared.(state := if size == 0 then Header else InOverride(size, padding, kind)), Nothing)
  }

  /** The entry a real header opens; its overrides are used up. */
  function OpenEntry(w: Walk, block: seq<Byte>, typeflag: Byte, size: nat, padding: nat): Step
    requires |block| == BLOCK
  {
    match BuildEntry(w.overrides.facts, block, typeflag, size)
    case None => Stop(UnknownEntryType)
    case Some(entry) =>
      if !entry.kind.Regular? && size > 0 then Stop(PayloadOnMetadata)
      else
        Go(w.(state := if entry.kind.Regular? && entry.size > 0 then InData(entry.size, padding) else Header,
              overrides := w.overrides.(facts := NO_FACTS), sawEntry := true), Entry(entry))
  }

  /** A whole header block is in. */
  function CloseHeader(w: Walk, block: seq<Byte>): Step
    requires |block| == BLOCK && (w.state.Header? || w.state.FirstZero?)
  {
    if AllZero(block) then
      if w.state.FirstZero? then Go(w.(state := Ended), End) else Go(w.(state := FirstZero), Nothing)
    else if w.state.FirstZero? then Stop(LoneZeroBlock)
    else if !ChecksumMatches(block) then Stop(ChecksumMismatch)
    else
      var typeflag := block[156];
      match ParseOctal(block[124..136])
      case None => Stop(SizeNotOctal)
      case Some(size) =>
        var padding := Padding(size);
        if typeflag == 120 || typeflag == 88 then BeginOverride(w, size, padding, PaxNext)
        else if typeflag == 103 then BeginOverride(w, size, padding, PaxGlobal)
        else if typeflag == 76 then BeginOverride(w, size, padding, GnuName)
        else if typeflag == 75 then BeginOverride(w, size, padding, GnuLink)
        else if typeflag == 83 then Stop(SparseMember)
        else OpenEntry(w, block, typeflag, size, padding)
  }

  /** An override payload is complete. */
  function ApplyOverride(w: Walk, kind: OverrideKind): Step {
    var buffer := w.overrides.buffer;
    var facts := w.overrides.facts;
    match kind
    case GnuName => Go(w.(overrides := Overrides(facts.(path := Some(CString(buffer))), [])), Nothing)
    case GnuLink => Go(w.(overrides := Overrides(facts.(link := Some(CString(buffer))), [])), Nothing)
    case PaxGlobal => Go(w.(overrides := Overrides(facts, [])), Nothing)
    case PaxNext =>
      match ReadPax(facts, buffer)
      case Wrong(f) => Stop(BadPax(f))
      case Read(read) => Go(w.(overrides := Overrides(read, [])), Nothing)
  }

  function Consume(w: Walk, b: Byte): (step: Step)
    requires ValidWalk(w)
    ensures step.Go? ==> ValidWalk(step.next)
  {
    match w.state
    case Header => CollectHeader(w, b)
    case FirstZero => CollectHeader(w, b)
    case InData(remaining, padding) =>
      if remaining > 0 then
        Go(w.(state := if remaining == 1 && padding == 0 then Header else InData(remaining - 1, padding)), Data(1))
      else if b != 0 then Stop(NonzeroPadding)
      else Go(w.(state := if padding == 1 then Header else InData(0, padding - 1)), Nothing)
    case InOverride(left, pad, kind) =>
      if left > 0 then
        if |w.overrides.buffer| >= OVERRIDE_MAX then Stop(MetadataOverBound)
        else
          var more := w.(overrides := w.overrides.(buffer := w.overrides.buffer + [b]));
          if left == 1 && pad == 0 then ApplyOverride(more.(state := Header), kind)
          else Go(more.(state := InOverride(left - 1, pad, kind)), Nothing)
      else if b != 0 then Stop(NonzeroPadding)
      else if pad == 1 then ApplyOverride(w.(state := Header), kind)
      else Go(w.(state := InOverride(0, pad - 1, kind)), Nothing)
    case Ended => if b != 0 then Stop(AfterEndMarker) else Go(w, Nothing)
  }

  function CollectHeader(w: Walk, b: Byte): (step: Step)
    requires ValidWalk(w) && (w.state.Header? || w.state.FirstZero?)
    ensures step.Go? ==> ValidWalk(step.next)
  {
    var block := w.block + [b];
    if |block| < BLOCK then Go(w.(block := block), Nothing) else CloseHeader(w.(block := []), block)
  }

  // The walker itself.

  class Walker {
    var state: State
    var block: seq<Byte>
    var facts: Facts
    var buffer: seq<Byte>
    var offset: nat
    var sawEntry: bool

    ghost function View(): Walk
      reads this
    {
      Walk(state, block, Overrides(facts, buffer), sawEntry)
    }

    ghost predicate Valid()
      reads this
    {
      ValidWalk(View())
    }

    constructor ()
      ensures Valid() && View() == START
    {
      state, block, facts, buffer, offset, sawEntry := Header, [], NO_FACTS, [], 0, false;
    }

    /** `step` is what this walker has just done. */
    ghost predicate Did(step: Step, fault: Option<Fault>, event: Event)
      reads this
    {
      match step
      case Go(next, e) => fault == None && View() == next && event == e
      case Stop(f) => fault == Some(f)
    }

    method PushByte(b: Byte) returns (fault: Option<Fault>, event: Event)
      requires Valid()
      modifies this
      ensures var step := Consume(old(View()), b);
              (step.Go? ==> Valid()) && Did(step, fault, event)
      ensures offset == old(offset) + 1
    {
      hide CloseHeader, ApplyOverride;
      fault, event := StepByte(b);
      offset := offset + 1;
    }

    method StepByte(b: Byte) returns (fault: Option<Fault>, event: Event)
      requires Valid()
      modifies this
      ensures offset == old(offset)
      ensures var step := Consume(old(View()), b);
              (step.Go? ==> Valid()) && Did(step, fault, event)
    {
      hide CloseHeader, ApplyOverride;
      fault, event := None, Nothing;
      match state {
        case Header =>
          fault, event := CollectByte(b);
        case FirstZero =>
          fault, event := CollectByte(b);
        case InData(remaining, padding) =>
          if remaining > 0 {
            event := Data(1);
            state := if remaining == 1 && padding == 0 then Header else InData(remaining - 1, padding);
          } else if b != 0 {
            fault := Some(NonzeroPadding);
          } else {
            state := if padding == 1 then Header else InData(0, padding - 1);
          }
        case InOverride(left, pad, kind) =>
          if left > 0 {
            if |buffer| >= OVERRIDE_MAX {
              return Some(MetadataOverBound), Nothing;
            }
            buffer := buffer + [b];
            if left == 1 && pad == 0 {
              state := Header;
              fault := ApplyOverrideHere(kind);
            } else {
              state := InOverride(left - 1, pad, kind);
            }
          } else if b != 0 {
            fault := Some(NonzeroPadding);
          } else if pad == 1 {
            state := Header;
            fault := ApplyOverrideHere(kind);
          } else {
            state := InOverride(0, pad - 1, kind);
          }
        case Ended =>
          if b != 0 {
            fault := Some(AfterEndMarker);
          }
      }
    }

    method CollectByte(b: Byte) returns (fault: Option<Fault>, event: Event)
      requires Valid() && (state.Header? || state.FirstZero?)
      modifies this
      ensures offset == old(offset)
      ensures var step := CollectHeader(old(View()), b);
              (step.Go? ==> Valid()) && Did(step, fault, event)
    {
      hide CloseHeader;
      block := block + [b];
      if |block| < BLOCK {
        return None, Nothing;
      }
      var whole := block;
      block := [];
      fault, event := CloseHeaderHere(whole);
    }

    method CloseHeaderHere(whole: seq<Byte>) returns (fault: Option<Fault>, event: Event)
      requires (state.Header? || state.FirstZero?) && |whole| == BLOCK && block == []
      modifies this`state, this`facts, this`buffer, this`sawEntry
      ensures Did(CloseHeader(old(View()), whole), fault, event)
    {
      hide ChecksumMatches, BuildEntry, ParseOctal;
      fault, event := None, Nothing;
      var zero := true;
      for i := 0 to BLOCK
        invariant zero == AllZero(whole[..i])
      {
        assert whole[..i + 1] == whole[..i] + [whole[i]];
        zero := zero && whole[i] == 0;
      }
      assert whole[..BLOCK] == whole;
      if zero {
        if state.FirstZero? {
          state, event := Ended, End;
        } else {
          state := FirstZero;
        }
        return;
      }
      if state.FirstZero? {
        return Some(LoneZeroBlock), Nothing;
      }
      var ok := CheckBlock(whole);
      if !ok {
        return Some(ChecksumMismatch), Nothing;
      }
      var typeflag := whole[156];
      var parsed := ReadOctal(whole[124..136]);
      if parsed.None? {
        return Some(SizeNotOctal), Nothing;
      }
      var size := parsed.value;
      var padding := (BLOCK - size % BLOCK) % BLOCK;
      if typeflag == 120 || typeflag == 88 {
        BeginOverrideHere(size, padding, PaxNext);
      } else if typeflag == 103 {
        BeginOverrideHere(size, padding, PaxGlobal);
      } else if typeflag == 76 {
        BeginOverrideHere(size, padding, GnuName);
      } else if typeflag == 75 {
        BeginOverrideHere(size, padding, GnuLink);
      } else if typeflag == 83 {
        fault := Some(SparseMember);
      } else {
        fault, event := OpenEntryHere(whole, typeflag, size, padding);
      }
    }

    method BeginOverrideHere(size: nat, padding: nat, kind: OverrideKind)
      modifies this`state, this`buffer
      ensures Did(BeginOverride(old(View()), size, padding, kind), None, Nothing)
    {
      buffer := [];
      state := if size == 0 then Header else InOverride(size, padding, kind);
    }

    method OpenEntryHere(whole: seq<Byte>, typeflag: Byte, size: nat, padding: nat) returns (fault: Option<Fault>, event: Event)
      requires |whole| == BLOCK
      modifies this`state, this`facts, this`sawEntry
      ensures Did(OpenEntry(old(View()), whole, typeflag, size, padding), fault, event)
    {
      var built := BuildEntryHere(whole, typeflag, size);
      if built.None? {
        return Some(UnknownEntryType), Nothing;
      }
      var entry := built.value;
      if entry.kind.Regular? && entry.size > 0 {
        state := InData(entry.size, padding);
      } else if size > 0 && !entry.kind.Regular? {
        return Some(PayloadOnMetadata), Nothing;
      } else {
        state := Header;
      }
      sawEntry := true;
      fault, event := None, Entry(entry);
    }

    method BuildEntryHere(whole: seq<Byte>, typeflag: Byte, headerSize: nat) returns (entry: Option<TarEntry>)
      requires |whole| == BLOCK
      modifies this`facts
      ensures entry == BuildEntry(old(facts), whole, typeflag, headerSize) && facts == NO_FACTS
    {
      hide ParseOctal, Find;
      var path;
      if facts.path.Some? {
        path := facts.path.value;
      } else {
        var k := Position(whole[0..100], 0);
        path := whole[0..100][..k];
        var p := Position(whole[345..500], 0);
        var prefix := whole[345..500][..p];
        if prefix != [] && whole[257..262] == USTAR {
          path := prefix + [47] + path;
        }
      }
      var l := Position(whole[157..257], 0);
      var link := if facts.link.Some? then facts.link.value else whole[157..257][..l];
      var size := if facts.size.Some? then facts.size.value else headerSize;
      facts := NO_FACTS;
      var kind := KindOf(typeflag, link);
      if kind.None? {
        return None;
      }
      var mode := ReadOctal(whole[100..108]);
      var mtime := ReadOctal(whole[136..148]);
      entry := Some(TarEntry(path, kind.value, size, if mode.Some? && mode.value <= MAX32 then mode else None, mtime));
    }

    method ApplyOverrideHere(kind: OverrideKind) returns (fault: Option<Fault>)
      modifies this`facts, this`buffer
      ensures Did(ApplyOverride(old(View()), kind), fault, Nothing)
    {
      hide ReadPax, Find;
      var payload := buffer;
      buffer := [];
      fault := None;
      match kind {
        case GnuName =>
          var k := Position(payload, 0);
          facts := facts.(path := Some(payload[..k]));
        case GnuLink =>
          var k := Position(payload, 0);
          facts := facts.(link := Some(payload[..k]));
        case PaxGlobal =>
        case PaxNext =>
          var r := ApplyPax(facts, payload);
          match r {
            case Wrong(f) => fault := Some(BadPax(f));
            case Read(read) => facts := read;
          }
      }
    }

    method Finish() returns (fault: Option<Fault>)
      ensures fault == if MayFinish(View()) then None else Some(Truncated)
    {
      match state {
        case Ended => fault := None;
        case Header => fault := if sawEntry && block == [] then None else Some(Truncated);
        case FirstZero => fault := if sawEntry && block == [] then None else Some(Truncated);
        case _ => fault := Some(Truncated);
      }
    }
  }

  // Runs.

  /** What a reader makes of the walk: entries, their bytes, the end of the archive. */
  datatype Report = Opens(entry: TarEntry) | Carries(b: Byte) | Closes

  function Reported(event: Event, b: Byte): seq<Report> {
    match event
    case Nothing => []
    case Entry(entry) => [Opens(entry)]
    case Data(_) => [Carries(b)]
    case End => [Closes]
  }

  datatype Ran = Ran(next: Walk, reports: seq<Report>)

  function Run(w: Walk, s: seq<Byte>): (r: Option<Ran>)
    requires ValidWalk(w)
    ensures r.Some? ==> ValidWalk(r.value.next)
  {
    if s == [] then Some(Ran(w, []))
    else
      match Run(w, s[..|s| - 1])
      case None => None
      case Some(r) =>
        match Consume(r.next, s[|s| - 1])
        case Stop(_) => None
        case Go(next, event) => Some(Ran(next, r.reports + Reported(event, s[|s| - 1])))
  }

  /** A run continued. */
  function Then(r: Option<Ran>, s: seq<Byte>): (q: Option<Ran>)
    requires r.Some? ==> ValidWalk(r.value.next)
    ensures q.Some? ==> ValidWalk(q.value.next)
  {
    match r
    case None => None
    case Some(a) =>
      match Run(a.next, s)
      case None => None
      case Some(b) => Some(Ran(b.next, a.reports + b.reports))
  }

  lemma {:induction false} RunThen(w: Walk, x: seq<Byte>, y: seq<Byte>)
    requires ValidWalk(w)
    ensures Run(w, x + y) == Then(Run(w, x), y)
  {
    hide Consume, Reported;
    if y == [] {
      assert x + y == x;
      if Run(w, x).Some? {
        assert Run(w, x).value.reports + [] == Run(w, x).value.reports;
      }
    } else {
      var front, b := y[..|y| - 1], y[|y| - 1];
      assert (x + y)[..|x + y| - 1] == x + front;
      RunThen(w, x, front);
      if Run(w, x + y).Some? {
        var r := Run(w, x).value;
        var q := Run(r.next, front).value;
        var last := Consume(q.next, b);
        assert r.reports + q.reports + Reported(last.event, b) == r.reports + (q.reports + Reported(last.event, b));
      }
    }
  }

  lemma RunStep(w: Walk, s: seq<Byte>, k: nat)
    requires ValidWalk(w) && k < |s|
    ensures Run(w, s[..k + 1]) ==
            match Run(w, s[..k])
            case None => None
            case Some(r) =>
              match Consume(r.next, s[k])
              case Stop(_) => None
              case Go(next, event) => Some(Ran(next, r.reports + Reported(event, s[k])))
  {
    hide Consume, Reported;
    assert s[..k + 1][..k] == s[..k];
  }

  /** A step after bytes that reported nothing. */
  lemma RunStepQuiet(w: Walk, s: seq<Byte>, k: nat, x: Walk)
    requires ValidWalk(w) && k < |s| && Run(w, s[..k]) == Some(Ran(x, []))
    ensures Run(w, s[..k + 1]) == Landed(Consume(x, s[k]), s[k])
  {
    hide Consume, Reported;
    RunStep(w, s, k);
    if Consume(x, s[k]).Go? {
      assert [] + Reported(Consume(x, s[k]).event, s[k]) == Reported(Consume(x, s[k]).event, s[k]);
    }
  }

  /** A run that reports nothing, then another. */
  lemma ThenQuiet(w: Walk, x: seq<Byte>, y: seq<Byte>, mid: Walk)
    requires ValidWalk(w) && Run(w, x) == Some(Ran(mid, []))
    ensures Run(w, x + y) == Run(mid, y)
  {
    hide Run;
    RunThen(w, x, y);
    if Run(mid, y).Some? {
      assert [] + Run(mid, y).value.reports == Run(mid, y).value.reports;
    }
  }

  /** The run of one step's outcome. */
  function Landed(step: Step, b: Byte): Option<Ran> {
    match step
    case Stop(_) => None
    case Go(next, event) => Some(Ran(next, Reported(event, b)))
  }

  lemma RunNothing(w: Walk)
    requires ValidWalk(w)
    ensures Run(w, []) == Some(Ran(w, []))
  {
  }
}
