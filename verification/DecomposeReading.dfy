/** Reading a compound: safe paths, what readers tell, and the tree that reading all the bytes gives (src/decompose/decomposer.rs). */
module DecomposeReading {
  import opened Bytes
  import opened DecomposeSink

  const PATH_MAX: nat := 4096
  const MAX_TOTAL_MEMBERS: nat := 1_000_000

  /** A member's first bytes are kept until there are this many, or the member ends. */
  const THRESHOLD: nat := 512

  datatype Reason =
    | UnsafePath
    | DepthExceeded
    | MetadataOverBound
    | EncryptedWithoutKey
    | UnsupportedCompression
    | UnsupportedFeature
    | Malformed
  datatype Problem = StreamRejected | NotAContainer | Opaque(reason: Reason)

  // Member paths.

  predicate IsDotDot(component: seq<Byte>) {
    component == [46, 46]
  }

  /** The components of a path, split at its slashes. */
  function Components(path: seq<Byte>): seq<seq<Byte>> {
    if path == [] then [[]]
    else
      var front, b := Components(path[..|path| - 1]), path[|path| - 1];
      if b == 47 then front + [[]]
      else if front == [] then [[b]]
      else front[..|front| - 1] + [front[|front| - 1] + [b]]
  }

  /** A path is safe when it is not too long, not absolute, and no component of it is dot-dot. */
  function PathFault(path: seq<Byte>): Option<Reason> {
    if |path| > PATH_MAX then Some(MetadataOverBound)
    else if path != [] && (path[0] == 47 || path[0] == 92) then Some(UnsafePath)
    else if exists i :: 0 <= i < |Components(path)| && IsDotDot(Components(path)[i]) then Some(UnsafePath)
    else None
  }

  method CheckPath(path: seq<Byte>) returns (fault: Option<Reason>)
    ensures fault == PathFault(path)
  {
    if |path| > PATH_MAX {
      return Some(MetadataOverBound);
    }
    if path != [] && (path[0] == 47 || path[0] == 92) {
      return Some(UnsafePath);
    }
    var component: seq<Byte> := [];
    var bad := false;
    ghost var done: seq<seq<Byte>> := [];
    assert path[..0] == [];
    for i := 0 to |path|
      invariant Components(path[..i]) == done + [component]
      invariant bad <==> exists j :: 0 <= j < |done| && IsDotDot(done[j])
    {
      assert path[..i + 1][..i] == path[..i];
      ghost var all := done + [component];
      assert all[..|all| - 1] == done;
      if path[i] == 47 {
        bad := bad || component == [46, 46];
        done := done + [component];
        component := [];
      } else {
        component := component + [path[i]];
      }
    }
    assert path[..|path|] == path;
    ghost var all := Components(path);
    assert all == done + [component];
    if bad || component == [46, 46] {
      assert IsDotDot(component) ==> IsDotDot(all[|done|]);
      assert forall j :: 0 <= j < |done| ==> all[j] == done[j];
      fault := Some(UnsafePath);
    } else {
      assert forall j :: 0 <= j < |all| ==> all[j] == if j < |done| then done[j] else component;
      fault := None;
    }
  }

  // Readers.

  datatype ReaderEvent =
    | Announce(kind: ContainerKind)
    | ReadEntry(entry: EntryKind, meta: Meta)
    | ReadStart(member: Meta)
    | ReadBytes(bytes: seq<Byte>)
    | ReadEnd(length: nat)

  datatype Pushed<+R> = Pushed(next: R, events: seq<ReaderEvent>) | Refused(reason: Reason)
  datatype Finished = Finished(events: seq<ReaderEvent>) | Denied(cause: Reason)

  datatype Inferred = Inferred(media: Option<Label>, container: Option<ContainerKind>)

  /** What the driver is given: how a reader of each kind starts, steps and finishes, and what a name and first bytes tell. */
  datatype Readers<!R> = Readers(
    start: ContainerKind -> R,
    push: (R, Byte) -> Pushed<R>,
    finish: R -> Finished,
    office: (R, seq<Byte>) -> Option<Label>,
    infer: (seq<Byte>, seq<Byte>) -> Inferred,
    detect: seq<Byte> -> Option<ContainerKind>)

  // What a reader may say: announce itself, then entries and members, each member whole.

  datatype Read = AnEntry(entry: EntryKind, meta: Meta) | AMember(meta: Meta, bytes: seq<Byte>)

  /** A container as its reader tells it: its kind and what it holds, members with their bytes. */
  datatype Past = Past(kind: ContainerKind, said: seq<Read>)

  datatype Told = Unannounced | Between(past: Past) | Inside(past: Past, meta: Meta, bytes: seq<Byte>)

  function Remember(past: Past, read: Read): Past {
    past.(said := past.said + [read])
  }

  function Tell(t: Told, e: ReaderEvent): Option<Told> {
    match e
    case Announce(kind) => if t.Unannounced? then Some(Between(Past(kind, []))) else None
    case ReadEntry(entry, meta) => if t.Between? then Some(Between(Remember(t.past, AnEntry(entry, meta)))) else None
    case ReadStart(meta) => if t.Between? then Some(Inside(t.past, meta, [])) else None
    case ReadBytes(bytes) => if t.Inside? then Some(t.(bytes := t.bytes + bytes)) else None
    case ReadEnd(length) =>
      if t.Inside? && |t.bytes| == length then Some(Between(Remember(t.past, AMember(t.meta, t.bytes)))) else None
  }

  function TellAll(t: Told, es: seq<ReaderEvent>): Option<Told>
    decreases |es|
  {
    if es == [] then Some(t)
    else
      match Tell(t, es[0])
      case None => None
      case Some(u) => TellAll(u, es[1..])
  }

  /** Where a reader stands: what it has told, with the bytes of an open member only counted. */
  datatype Stand = StandUnannounced | StandBetween | StandInside(count: nat)

  function StandOf(t: Told): Stand {
    match t
    case Unannounced => StandUnannounced
    case Between(_) => StandBetween
    case Inside(_, _, bytes) => StandInside(|bytes|)
  }

  predicate StepTold<R>(at: R -> Stand, next: R, t: Told, es: seq<ReaderEvent>) {
    TellAll(t, es).Some? && StandOf(TellAll(t, es).value) == at(next)
  }

  /** What a reader may say when its bytes end: nothing more, or the end of the open member first, and never a member left open. */
  predicate FinishTold(t: Told, es: seq<ReaderEvent>) {
    && TellAll(t, es).Some? && !TellAll(t, es).value.Unannounced?
    && (es != [] ==> !TellAll(t, es).value.Inside? && (t.Inside? ==> es[0].ReadEnd?))
  }

  /** Readers that bracket their members; `at` says where a reader stands. */
  ghost predicate Brackets<R(!new)>(readers: Readers<R>, at: R -> Stand) {
    && (forall kind :: at(readers.start(kind)) == StandOf(FirstTold(kind)))
    && (forall r, b, t :: readers.push(r, b).Pushed? && StandOf(t) == at(r) ==>
          StepTold(at, readers.push(r, b).next, t, readers.push(r, b).events))
    && (forall r, t :: readers.finish(r).Finished? && StandOf(t) == at(r) ==> FinishTold(t, readers.finish(r).events))
  }

  // Reading a container on its own, from its first byte to its last.

  /** A ZIP or TAR container is announced at once; what is inside a gzip stream has to be found out. */
  function FirstTold(kind: ContainerKind): Told {
    if kind == Zip || kind == Tar then Between(Past(kind, [])) else Unannounced
  }

  datatype Standing<+R> = Standing(reader: R, told: Told, office: Option<Label>)

  /** The first member name that tells an Office label gives it to the container. */
  function Labelled<R>(readers: Readers<R>, r: R, office: Option<Label>, e: ReaderEvent): Option<Label> {
    if office.None? && e.ReadStart? then readers.office(r, e.member.path) else office
  }

  function LabelledAll<R>(readers: Readers<R>, r: R, office: Option<Label>, es: seq<ReaderEvent>): Option<Label>
    decreases |es|
  {
    if es == [] then office else LabelledAll(readers, r, Labelled(readers, r, office, es[0]), es[1..])
  }

  function Reading<R>(readers: Readers<R>, kind: ContainerKind, bytes: seq<Byte>): Option<Standing<R>> {
    if bytes == [] then Some(Standing(readers.start(kind), FirstTold(kind), None))
    else
      match Reading(readers, kind, bytes[..|bytes| - 1])
      case None => None
      case Some(s) => ReadStep(readers, s, bytes[|bytes| - 1])
  }

  function ReadStep<R>(readers: Readers<R>, s: Standing<R>, b: Byte): Option<Standing<R>> {
    match readers.push(s.reader, b)
    case Refused(_) => None
    case Pushed(next, events) =>
      match TellAll(s.told, events)
      case None => None
      case Some(t) => Some(Standing(next, t, LabelledAll(readers, next, s.office, events)))
  }

  datatype Account = Account(past: Past, office: Option<Label>)

  /** What a reader tells of a whole container; `None` when it refuses it, or it ends inside a member. */
  function ReadOut<R>(readers: Readers<R>, kind: ContainerKind, bytes: seq<Byte>): Option<Account> {
    match Reading(readers, kind, bytes)
    case None => None
    case Some(s) => ReadLast(readers, s)
  }

  function ReadLast<R>(readers: Readers<R>, s: Standing<R>): Option<Account> {
    match readers.finish(s.reader)
    case Denied(_) => None
    case Finished(events) =>
      match TellAll(s.told, events)
      case Some(Between(past)) => Some(Account(past, LabelledAll(readers, s.reader, s.office, events)))
      case _ => None
  }

  lemma ReadOn<R>(readers: Readers<R>, kind: ContainerKind, bytes: seq<Byte>, b: Byte)
    requires Reading(readers, kind, bytes).Some?
    ensures Reading(readers, kind, bytes + [b]) == ReadStep(readers, Reading(readers, kind, bytes).value, b)
  {
    assert (bytes + [b])[..|bytes|] == bytes;
  }

  lemma {:induction false} ReadingStands<R(!new)>(readers: Readers<R>, at: R -> Stand, kind: ContainerKind, bytes: seq<Byte>)
    requires Brackets(readers, at) && Reading(readers, kind, bytes).Some?
    ensures var s := Reading(readers, kind, bytes).value; StandOf(s.told) == at(s.reader)
  {
    if bytes != [] {
      ReadingStands(readers, at, kind, bytes[..|bytes| - 1]);
      hide TellAll;
      var s := Reading(readers, kind, bytes[..|bytes| - 1]).value;
      assert StepTold(at, readers.push(s.reader, bytes[|bytes| - 1]).next, s.told, readers.push(s.reader, bytes[|bytes| - 1]).events);
    }
  }

  // What a compound decomposes into: every container as its reader tells it, nested ones read from their member's bytes.

  /** After `n` of its bytes, a member's name and these bytes tell its media type and whether a container is inside. */
  predicate Decided<R>(readers: Readers<R>, path: seq<Byte>, bytes: seq<Byte>, n: nat, media: Option<Label>, inside: Option<ContainerKind>) {
    n <= |bytes| && readers.infer(path, bytes[..n]) == Inferred(media, inside)
  }

  /** That is decided as soon as there are enough bytes, or all of them. */
  ghost predicate Chosen<R>(readers: Readers<R>, path: seq<Byte>, bytes: seq<Byte>, media: Option<Label>, inside: Option<ContainerKind>) {
    exists n: nat :: (THRESHOLD <= n || n == |bytes|) && Decided(readers, path, bytes, n, media, inside)
  }

  ghost predicate ItemIs<R>(readers: Readers<R>, item: Item, read: Read)
    decreases item, 0
  {
    match item
    case Entry(entry, meta) => read == AnEntry(entry, meta)
    case Plain(meta, media, windows) =>
      read == AMember(meta, Flatten(windows)) && Chosen(readers, meta.path, Flatten(windows), media, None)
    case Nested(meta, media, inner, length) =>
      && read.AMember? && read.meta == meta && |read.bytes| == length
      && exists kind :: Chosen(readers, meta.path, read.bytes, media, Some(kind)) && Tells(readers, inner, kind, read.bytes)
  }

  ghost predicate ItemsAre<R>(readers: Readers<R>, items: seq<Item>, said: seq<Read>)
    decreases items, |items|
  {
    && |items| == |said|
    && (items == [] ||
        (ItemsAre(readers, items[..|items| - 1], said[..|said| - 1]) && ItemIs(readers, items[|items| - 1], said[|said| - 1])))
  }

  /** The container that `bytes`, read as a container of this kind, are. */
  ghost predicate Tells<R>(readers: Readers<R>, c: Container, kind: ContainerKind, bytes: seq<Byte>)
    decreases c, 1
  {
    var out := ReadOut(readers, kind, bytes);
    && out.Some? && out.value.past.kind == c.kind && out.value.office == c.office
    && ItemsAre(readers, c.items, out.value.past.said)
  }

  /** The outer container is detected as soon as there are enough bytes, or all of them. */
  ghost predicate Decomposes<R>(readers: Readers<R>, input: seq<Byte>, whole: Container) {
    exists kind, n: nat :: Detected(readers, input, n, kind) && (THRESHOLD <= n || n == |input|) && Tells(readers, whole, kind, input)
  }

  predicate Detected<R>(readers: Readers<R>, input: seq<Byte>, n: nat, kind: ContainerKind) {
    n <= |input| && readers.detect(input[..n]) == Some(kind)
  }

  lemma OneMoreIs<R>(readers: Readers<R>, items: seq<Item>, item: Item, said: seq<Read>, read: Read)
    requires ItemsAre(readers, items, said) && ItemIs(readers, item, read)
    ensures ItemsAre(readers, items + [item], said + [read])
  {
    hide ItemIs;
    assert (items + [item])[..|items|] == items && (said + [read])[..|said|] == said;
  }
}
