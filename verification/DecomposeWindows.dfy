/** What a compound decomposes into does not depend on how its bytes came in windows. */
module DecomposeWindows {
  import opened Bytes
  import opened DecomposeSink
  import opened DecomposeReading

  // Listings but for the windows that plain members' bytes were shown in.

  function Joined(c: Container): Container
    decreases c, 1
  {
    c.(items := JoinedItems(c.items))
  }

  function JoinedItem(item: Item): Item
    decreases item, 0
  {
    match item
    case Entry(_, _) => item
    case Plain(meta, media, windows) => Plain(meta, media, [Flatten(windows)])
    case Nested(meta, media, inner, length) => Nested(meta, media, Joined(inner), length)
  }

  function JoinedItems(items: seq<Item>): seq<Item>
    decreases items, |items|
  {
    if items == [] then [] else JoinedItems(items[..|items| - 1]) + [JoinedItem(items[|items| - 1])]
  }

  // Inference looks at no more than the bytes it waits for.

  /** The first bytes, as many as a decision waits for. */
  function Head(bytes: seq<Byte>): seq<Byte> {
    if |bytes| <= THRESHOLD then bytes else bytes[..THRESHOLD]
  }

  /** Neither inference nor detection looks past those. */
  ghost predicate HeadOnly<R>(readers: Readers<R>) {
    && (forall path, bytes :: readers.infer(path, bytes) == readers.infer(path, Head(bytes)))
    && (forall bytes :: readers.detect(bytes) == readers.detect(Head(bytes)))
  }

  lemma HeadOfPrefix(bytes: seq<Byte>, n: nat)
    requires n <= |bytes| && (THRESHOLD <= n || n == |bytes|)
    ensures Head(bytes[..n]) == Head(bytes)
  {
  }

  /** Then whatever a member was decided on, it was decided the same. */
  lemma ChosenByHead<R>(readers: Readers<R>, path: seq<Byte>, bytes: seq<Byte>, media: Option<Label>, inside: Option<ContainerKind>)
    requires HeadOnly(readers) && Chosen(readers, path, bytes, media, inside)
    ensures readers.infer(path, Head(bytes)) == Inferred(media, inside)
  {
    var n: nat :| (THRESHOLD <= n || n == |bytes|) && Decided(readers, path, bytes, n, media, inside);
    HeadOfPrefix(bytes, n);
    assert readers.infer(path, bytes[..n]) == readers.infer(path, Head(bytes[..n]));
  }

  /** The same bytes read as a container of the same kind are one container. */
  lemma {:induction false} OneContainer<R>(readers: Readers<R>, a: Container, b: Container, kind: ContainerKind, bytes: seq<Byte>)
    requires HeadOnly(readers) && Tells(readers, a, kind, bytes) && Tells(readers, b, kind, bytes)
    ensures Joined(a) == Joined(b)
    decreases a, 1
  {
    hide ReadOut, ItemsAre, JoinedItems;
    OneList(readers, a.items, b.items, ReadOut(readers, kind, bytes).value.past.said);
  }

  lemma {:induction false} OneList<R>(readers: Readers<R>, a: seq<Item>, b: seq<Item>, said: seq<Read>)
    requires HeadOnly(readers) && ItemsAre(readers, a, said) && ItemsAre(readers, b, said)
    ensures JoinedItems(a) == JoinedItems(b)
    decreases a, |a|
  {
    hide ItemIs, JoinedItem;
    if a != [] {
      OneList(readers, a[..|a| - 1], b[..|b| - 1], said[..|said| - 1]);
      OneItem(readers, a[|a| - 1], b[|b| - 1], said[|said| - 1]);
    }
  }

  lemma {:induction false} OneItem<R>(readers: Readers<R>, a: Item, b: Item, read: Read)
    requires HeadOnly(readers) && ItemIs(readers, a, read) && ItemIs(readers, b, read)
    ensures JoinedItem(a) == JoinedItem(b)
    decreases a, 0
  {
    hide Chosen, HeadOnly, Tells, Flatten, Joined;
    if read.AMember? {
      var x := InsideOf(readers, a, read);
      var y := InsideOf(readers, b, read);
      if a.Nested? {
        OneContainer(readers, a.inner, b.inner, x.value, read.bytes);
      }
    }
  }

  /** A member's item tells what its name and first bytes do. */
  lemma InsideOf<R>(readers: Readers<R>, item: Item, read: Read) returns (inside: Option<ContainerKind>)
    requires HeadOnly(readers) && ItemIs(readers, item, read) && read.AMember?
    ensures !item.Entry? && readers.infer(read.meta.path, Head(read.bytes)) == Inferred(item.media, inside)
    ensures inside.Some? <==> item.Nested?
    ensures item.Nested? ==> Tells(readers, item.inner, inside.value, read.bytes)
  {
    hide Chosen, HeadOnly, Tells, Flatten;
    match item {
      case Plain(meta, media, windows) =>
        inside := None;
        ChosenByHead(readers, meta.path, Flatten(windows), media, None);
      case Nested(meta, media, inner, length) =>
        var kind :| Chosen(readers, meta.path, read.bytes, media, Some(kind)) && Tells(readers, inner, kind, read.bytes);
        inside := Some(kind);
        ChosenByHead(readers, meta.path, read.bytes, media, inside);
    }
  }

  /**
   * When inference and detection look at no more bytes than they wait for, all runs over the same bytes that finish have
   * listed the same tree, whatever windows each was pushed in: but for how plain members' bytes were cut.
   */
  lemma OneDecomposition<R>(readers: Readers<R>, input: seq<Byte>, a: Container, b: Container)
    requires HeadOnly(readers) && Decomposes(readers, input, a) && Decomposes(readers, input, b)
    ensures Joined(a) == Joined(b)
  {
    hide Tells, Joined;
    var ka, na: nat :| Detected(readers, input, na, ka) && (THRESHOLD <= na || na == |input|) && Tells(readers, a, ka, input);
    var kb, nb: nat :| Detected(readers, input, nb, kb) && (THRESHOLD <= nb || nb == |input|) && Tells(readers, b, kb, input);
    HeadOfPrefix(input, na);
    HeadOfPrefix(input, nb);
    assert readers.detect(input[..na]) == readers.detect(Head(input[..na]));
    assert readers.detect(input[..nb]) == readers.detect(Head(input[..nb]));
    OneContainer(readers, a, b, ka, input);
  }
}
