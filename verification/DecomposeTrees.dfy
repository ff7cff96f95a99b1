/** What is let through is exactly what has a tree: safe, no deeper than the cap and no larger. */
module DecomposeTrees {
  import opened Bytes
  import opened DecomposeSink
  import opened DecomposeReading
  import opened DecomposeWindows
  import opened DecomposeRefusals

  /** How many entries and members a container holds, nested ones included. */
  function Size(c: Container): nat
    decreases c, 1
  {
    SizeOf(c.items)
  }

  function ItemSize(item: Item): nat
    decreases item, 0
  {
    1 + if item.Nested? then Size(item.inner) else 0
  }

  function SizeOf(items: seq<Item>): nat
    decreases items, |items|
  {
    if items == [] then 0 else SizeOf(items[..|items| - 1]) + ItemSize(items[|items| - 1])
  }

  /** Every path in a container is safe. */
  predicate Safe(c: Container)
    decreases c, 1
  {
    SafeItems(c.items)
  }

  predicate SafeItem(item: Item)
    decreases item, 0
  {
    PathFault(item.meta.path).None? && (item.Nested? ==> Safe(item.inner))
  }

  predicate SafeItems(items: seq<Item>)
    decreases items, |items|
  {
    items == [] || (SafeItems(items[..|items| - 1]) && SafeItem(items[|items| - 1]))
  }

  // A tree's count.

  function Counted(safe: bool, height: nat, depth: nat, size: nat): Option<nat> {
    if safe && depth + height <= MAX_DEPTH then Some(size) else None
  }

  /** The count of a container that has a tree is the tree's size, if its paths are safe and it does not nest too deep. */
  lemma {:induction false} TreeCount<R>(readers: Readers<R>, c: Container, kind: ContainerKind, bytes: seq<Byte>, depth: nat)
    requires HeadOnly(readers) && depth < MAX_DEPTH && Tells(readers, c, kind, bytes)
    ensures WholeCount(readers, kind, bytes, depth) == Counted(Safe(c), Height(c), depth, Size(c))
    decreases c, 1
  {
    hide HeadOnly, ItemsAre, ReadOut, SafeItems, SizeOf, HeightOf, SaidCount;
    ItemsCount(readers, c.items, ReadOut(readers, kind, bytes).value.past.said, depth);
  }

  lemma {:induction false} ItemsCount<R>(readers: Readers<R>, items: seq<Item>, said: seq<Read>, depth: nat)
    requires HeadOnly(readers) && depth < MAX_DEPTH && ItemsAre(readers, items, said)
    ensures SaidCount(readers, said, depth) == Counted(SafeItems(items), 1 + HeightOf(items), depth, SizeOf(items))
    decreases items, |items|
  {
    hide HeadOnly, ItemIs, ReadCount, SafeItem, ItemSize, ItemHeight;
    if items != [] {
      ItemsCount(readers, items[..|items| - 1], said[..|said| - 1], depth);
      ItemCount(readers, items[|items| - 1], said[|said| - 1], depth);
    }
  }

  lemma {:induction false} ItemCount<R>(readers: Readers<R>, item: Item, read: Read, depth: nat)
    requires HeadOnly(readers) && depth < MAX_DEPTH && ItemIs(readers, item, read)
    ensures ReadCount(readers, read, depth) == Counted(SafeItem(item), 1 + ItemHeight(item), depth, ItemSize(item))
    decreases item, 0
  {
    hide HeadOnly, Chosen, Tells, WholeCount, PathFault, Flatten, Safe, Size, Height;
    if read.AMember? {
      var inside := InsideOf(readers, item, read);
      if item.Nested? && depth + 1 < MAX_DEPTH {
        TreeCount(readers, item.inner, inside.value, read.bytes, depth + 1);
      }
      if item.Nested? {
        SomeHeight(item.inner);
      }
    }
  }

  lemma SomeHeight(c: Container)
    ensures 1 <= Height(c)
  {
  }

  // A counted container's tree.

  lemma {:induction false} TreeOf<R>(readers: Readers<R>, kind: ContainerKind, bytes: seq<Byte>, depth: nat) returns (c: Container)
    requires HeadOnly(readers) && depth < MAX_DEPTH && WholeCount(readers, kind, bytes, depth).Some?
    ensures Tells(readers, c, kind, bytes)
    decreases MAX_DEPTH - depth, 2
  {
    hide HeadOnly, ReadOut, SaidCount, ItemsAre;
    var out := ReadOut(readers, kind, bytes).value;
    var items := ItemsOf(readers, out.past.said, depth);
    c := Container(out.past.kind, items, out.office);
  }

  lemma {:induction false} ItemsOf<R>(readers: Readers<R>, said: seq<Read>, depth: nat) returns (items: seq<Item>)
    requires HeadOnly(readers) && depth < MAX_DEPTH && SaidCount(readers, said, depth).Some?
    ensures ItemsAre(readers, items, said)
    decreases MAX_DEPTH - depth, 1, |said|
  {
    hide HeadOnly, ItemIs, ReadCount;
    items := [];
    if said != [] {
      var front := ItemsOf(readers, said[..|said| - 1], depth);
      var item := TheItem(readers, said[|said| - 1], depth);
      OneMoreIs(readers, front, item, said[..|said| - 1], said[|said| - 1]);
      items := front + [item];
      assert said[..|said| - 1] + [said[|said| - 1]] == said;
    }
  }

  lemma {:induction false} TheItem<R>(readers: Readers<R>, read: Read, depth: nat) returns (item: Item)
    requires HeadOnly(readers) && depth < MAX_DEPTH && ReadCount(readers, read, depth).Some?
    ensures ItemIs(readers, item, read)
    decreases MAX_DEPTH - depth, 0
  {
    hide HeadOnly, Chosen, Tells, WholeCount, PathFault, Flatten;
    match read {
      case AnEntry(entry, meta) => item := Entry(entry, meta);
      case AMember(meta, bytes) =>
        var inferred := readers.infer(meta.path, Head(bytes));
        HeadChooses(readers, meta.path, bytes);
        if inferred.container.None? {
          item := Plain(meta, inferred.media, [bytes]);
          FlattenOne(bytes);
        } else {
          var inner := TreeOf(readers, inferred.container.value, bytes, depth + 1);
          item := Nested(meta, inferred.media, inner, |bytes|);
          assert Chosen(readers, meta.path, bytes, inferred.media, Some(inferred.container.value)) && Tells(readers, inner, inferred.container.value, bytes);
        }
    }
  }

  /** What the first bytes tell, all the bytes tell. */
  lemma HeadChooses<R>(readers: Readers<R>, path: seq<Byte>, bytes: seq<Byte>)
    requires HeadOnly(readers)
    ensures var i := readers.infer(path, Head(bytes)); Chosen(readers, path, bytes, i.media, i.container)
  {
    var i := readers.infer(path, Head(bytes));
    assert readers.infer(path, bytes) == i && bytes[..|bytes|] == bytes;
    assert Decided(readers, path, bytes, |bytes|, i.media, i.container);
  }

  /**
   * All the bytes of a compound are let through exactly when they are the bytes of some tree whose paths are safe, that
   * nests at most eight deep and holds at most a million entries and members.
   */
  lemma DecomposableExactly<R>(readers: Readers<R>, input: seq<Byte>)
    requires HeadOnly(readers)
    ensures Decomposable(readers, input) <==>
            exists c :: Decomposes(readers, input, c) && Safe(c) && Height(c) <= MAX_DEPTH && Size(c) <= MAX_TOTAL_MEMBERS
  {
    hide Tells, Safe, Size, Height, WholeCount;
    if Decomposable(readers, input) {
      var kind := readers.detect(Head(input)).value;
      var c := TreeOf(readers, kind, input, 0);
      assert readers.detect(input) == readers.detect(Head(input)) && input[..|input|] == input;
      assert Detected(readers, input, |input|, kind);
      TreeCount(readers, c, kind, input, 0);
      assert Decomposes(readers, input, c);
    }
    if c :| Decomposes(readers, input, c) && Safe(c) && Height(c) <= MAX_DEPTH && Size(c) <= MAX_TOTAL_MEMBERS {
      var kind, n: nat :| Detected(readers, input, n, kind) && (THRESHOLD <= n || n == |input|) && Tells(readers, c, kind, input);
      HeadOfPrefix(input, n);
      assert readers.detect(input[..n]) == readers.detect(Head(input[..n]));
      TreeCount(readers, c, kind, input, 0);
    }
  }

  // Safe paths, in letters.

  /** Two dots between slashes, or at an end. */
  predicate DotsAt(path: seq<Byte>, i: int) {
    && 0 <= i && i + 2 <= |path| && path[i] == '.' as int && path[i + 1] == '.' as int
    && (i > 0 ==> path[i - 1] == '/' as int) && (i + 2 < |path| ==> path[i + 2] == '/' as int)
  }

  /** What follows the last slash of a path. */
  predicate IsTail(path: seq<Byte>, last: seq<Byte>) {
    '/' as int !in last && |last| <= |path| && path[|path| - |last|..] == last && (|last| < |path| ==> path[|path| - |last| - 1] == '/' as int)
  }

  /** Two dots that a slash follows. */
  predicate DotsClosed(path: seq<Byte>) {
    exists i :: 0 <= i < |path| && DotsAt(path, i) && i + 2 < |path|
  }

  lemma ClosedSnoc(front: seq<Byte>, b: Byte)
    ensures DotsClosed(front + [b]) <==> DotsClosed(front) || (b == '/' as int && DotsAt(front, |front| - 2))
  {
    var path := front + [b];
    if i :| 0 <= i < |path| && DotsAt(path, i) && i + 2 < |path| {
      assert DotsAt(front, i);
    }
    if i :| 0 <= i < |front| && DotsAt(front, i) && i + 2 < |front| {
      assert DotsAt(path, i);
    }
    if b == '/' as int && DotsAt(front, |front| - 2) {
      assert DotsAt(path, |front| - 2);
    }
  }

  predicate AnyDots(components: seq<seq<Byte>>) {
    exists j :: 0 <= j < |components| && IsDotDot(components[j])
  }

  lemma AnySnoc(components: seq<seq<Byte>>, last: seq<Byte>)
    ensures AnyDots(components + [last]) <==> AnyDots(components) || IsDotDot(last)
  {
    var all := components + [last];
    assert all[|components|] == last;
    if j :| 0 <= j < |components| && IsDotDot(components[j]) {
      assert IsDotDot(all[j]);
    }
  }

  lemma TailSnoc(front: seq<Byte>, last: seq<Byte>, b: Byte)
    requires IsTail(front, last)
    ensures IsTail(front + [b], if b == '/' as int then [] else last + [b])
  {
    var path := front + [b];
    var k := |front| - |last|;
    assert path[k..] == front[k..] + [b];
    assert path[|path|..] == [];
  }

  /** A byte ends a component, or is one more of the last. */
  lemma ComponentsSnoc(front: seq<Byte>, b: Byte)
    requires Components(front) != []
    ensures var before, c := Components(front), Components(front + [b]);
            && c != [] && c[|c| - 1] == (if b == '/' as int then [] else before[|before| - 1] + [b])
            && c[..|c| - 1] == if b == '/' as int then before else before[..|before| - 1]
  {
    assert (front + [b])[..|front|] == front;
  }

  /** The components of a path: the last is what follows its last slash, and one before it is dot-dot where the path says so. */
  lemma {:induction false} ComponentsAre(path: seq<Byte>)
    ensures var c := Components(path);
            c != [] && IsTail(path, c[|c| - 1]) && (AnyDots(c[..|c| - 1]) <==> DotsClosed(path))
  {
    hide Components, IsTail, AnyDots, DotsClosed, DotsAt, IsDotDot;
    if path == [] {
      NoDots();
    } else {
      var front, b := path[..|path| - 1], path[|path| - 1];
      ComponentsAre(front);
      var before := Components(front);
      var last := before[|before| - 1];
      assert path == front + [b] && before == before[..|before| - 1] + [last];
      ComponentsSnoc(front, b);
      TailSnoc(front, last, b);
      ClosedSnoc(front, b);
      LastDots(front, last);
      AnySnoc(before[..|before| - 1], last);
    }
  }

  lemma NoDots()
    ensures Components([]) == [[]] && Components([])[..0] == [] && IsTail([], []) && !AnyDots([]) && !DotsClosed([])
  {
  }

  /** The last component is dot-dot exactly when the path ends in two dots that are all of it. */
  lemma LastDots(path: seq<Byte>, last: seq<Byte>)
    requires IsTail(path, last)
    ensures IsDotDot(last) <==> DotsAt(path, |path| - 2)
  {
    var k := |path| - |last|;
    assert forall i :: 0 <= i < |last| ==> path[k + i] == last[i];
    if DotsAt(path, |path| - 2) {
      assert |last| == 2;
      assert last == [last[0], last[1]];
    }
  }

  /** A path is refused for its length, for a slash or backslash in front, or for going up. */
  lemma SafePaths(path: seq<Byte>)
    ensures PathFault(path).None? <==>
            && |path| <= 4096 && (path != [] ==> path[0] != '/' as int && path[0] != '\\' as int)
            && !exists i :: DotsAt(path, i)
    ensures PathFault(path) == Some(MetadataOverBound) <==> |path| > 4096
  {
    ComponentsAre(path);
    var c := Components(path);
    LastDots(path, c[|c| - 1]);
    AnySnoc(c[..|c| - 1], c[|c| - 1]);
    assert c[..|c| - 1] + [c[|c| - 1]] == c;
    assert AnyDots(c) <==> exists i :: 0 <= i < |c| && IsDotDot(c[i]);
    assert (exists i :: DotsAt(path, i)) <==> DotsClosed(path) || DotsAt(path, |path| - 2);
  }
}
