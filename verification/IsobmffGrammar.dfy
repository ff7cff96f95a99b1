/** The box grammar of section 4.2 of ISO/IEC 14496-12, read top-down, and its equality with the walker. */
module IsobmffGrammar {
  import opened Bytes
  import opened IsobmffWalker

  /** One box header at the front of a byte string. */
  datatype Box = Box(headerLen: nat, size: Option<nat>, kind: nat)

  function ParseHeader(s: seq<Byte>): (box: Option<Box>)
    ensures box.Some? ==> HEADER_MIN <= box.value.headerLen <= |s|
  {
    if |s| < HEADER_MIN || |s| < HeaderLen(s) then None
    else Some(Box(HeaderLen(s), DeclaredSize(s), Kind(s)))
  }

  /** The front of `s` is a box of known size that fits. */
  predicate FitsFront(s: seq<Byte>) {
    var box := ParseHeader(s);
    box.Some? && box.value.size.Some? && box.value.headerLen <= box.value.size.value <= |s|
  }

  /** `s` is exactly a sequence of boxes of known size, inside `depth` open containers. */
  predicate Boxes(s: seq<Byte>, depth: nat)
    decreases |s|
  {
    s == [] ||
    (FitsFront(s) &&
     var box := ParseHeader(s).value;
     && (IsContainer(box.kind) ==> depth < MAX_DEPTH && Boxes(s[box.headerLen..box.size.value], depth + 1))
     && Boxes(s[box.size.value..], depth))
  }

  /** A box running to the end of the stream: any bytes, or, for a container, boxes. */
  predicate OpenEnded(s: seq<Byte>) {
    var box := ParseHeader(s);
    box.Some? && box.value.size.None? &&
    (IsContainer(box.value.kind) ==> Boxes(s[box.value.headerLen..], 1))
  }

  /** `s` is the rest of a stream at top level; `first` when no box precedes it. */
  predicate TopLevel(s: seq<Byte>, first: bool)
    decreases |s|
  {
    if s == [] then !first
    else
      var box := ParseHeader(s);
      && box.Some?
      && (first ==> MayBegin(box.value.kind))
      && (OpenEnded(s) ||
          (FitsFront(s) &&
           var size := box.value.size.value;
           && (IsContainer(box.value.kind) ==> Boxes(s[box.value.headerLen..size], 1))
           && TopLevel(s[size..], false)))
  }

  /** A whole ISO BMFF stream. */
  predicate Stream(s: seq<Byte>) {
    TopLevel(s, true)
  }

  /** The payload of the box at the front of `s`. */
  function Inner(s: seq<Byte>): seq<Byte>
    requires ParseHeader(s).Some?
  {
    var box := ParseHeader(s).value;
    if FitsFront(s) then s[box.headerLen..box.size.value] else s[box.headerLen..]
  }

  /** What follows the box at the front of `s`. */
  function After(s: seq<Byte>): (r: seq<Byte>)
    requires ParseHeader(s).Some?
    ensures |r| < |s|
  {
    if FitsFront(s) then s[ParseHeader(s).value.size.value..] else []
  }

  /** In a sequence of boxes, byte `i` is the first byte of a box. */
  predicate StartsBox(s: seq<Byte>, i: nat)
    decreases |s|
  {
    i < |s| && ParseHeader(s).Some? &&
    var box := ParseHeader(s).value;
    var end := |s| - |After(s)|;
    || i == 0
    || (IsContainer(box.kind) && box.headerLen <= i && StartsBox(Inner(s), i - box.headerLen))
    || (end <= i && StartsBox(After(s), i - end))
  }

  // The grammar seen from inside: what must follow when a stack of containers is open.

  predicate Nested(open: seq<Option<nat>>) {
    && (forall i :: 0 < i < |open| ==> open[i].Some?)
    && (forall i, j :: 0 <= i < j < |open| && open[i].Some? && open[j].Some? ==> open[j].value <= open[i].value)
  }

  /** A walker at the start of a box, with no finished container left open. */
  predicate Ready(w: Walk) {
    && AtBoundary(w) && Nested(w.open) && PopExhausted(w.open) == w.open
    && (!w.seenFirst ==> w.open == []) && |w.open| <= MAX_DEPTH
  }

  /** The bytes left for the innermost container, if it is bounded. */
  function Room(open: seq<Option<nat>>): Option<nat> {
    if open == [] then None else open[|open| - 1]
  }

  lemma RoomBounds(open: seq<Option<nat>>, n: nat)
    requires Nested(open)
    ensures CanDebit(open, n) <==> (Room(open).Some? ==> n <= Room(open).value)
  {
  }

  ghost predicate Rest(open: seq<Option<nat>>, s: seq<Byte>, first: bool)
    requires Nested(open)
    decreases |open|
  {
    if open == [] then TopLevel(s, first)
    else if Room(open).None? then Boxes(s, 1)
    else
      var r := Room(open).value;
      var outer := open[..|open| - 1];
      && r <= |s|
      && Boxes(s[..r], |open|)
      && (RoomBounds(open, r); Rest(Debit(outer, r), s[r..], false))
  }

  /** Byte `i` of what must follow is the first byte of a box. */
  ghost predicate RestStarts(open: seq<Option<nat>>, s: seq<Byte>, i: nat)
    decreases |open|
  {
    if Room(open).None? then StartsBox(s, i)
    else
      var r := Room(open).value;
      var outer := open[..|open| - 1];
      && r <= |s| && CanDebit(outer, r)
      && (StartsBox(s[..r], i) || (r <= i && RestStarts(Debit(outer, r), s[r..], i - r)))
  }

  /** The walker stands at a box boundary before byte `i`. */
  predicate Marks(w: Walk, s: seq<Byte>, i: nat) {
    i < |s| && Run(w, s[..i]).Some? && AtBoundary(Run(w, s[..i]).value)
  }

  // Runs of the walker over a header and over a payload.

  lemma ParsePrefix(s: seq<Byte>, r: nat)
    requires r <= |s|
    ensures ParseHeader(s[..r]) == if ParseHeader(s).Some? && ParseHeader(s).value.headerLen <= r then ParseHeader(s) else None
  {
    if HEADER_MIN <= r {
      SameHeaderLen(s[..r], s);
      if HeaderLen(s) <= r {
        assert s[..r][0..4] == s[0..4] && s[..r][4..8] == s[4..8];
        if CompactSize(s) == 1 {
          assert s[..r][8..16] == s[8..16];
        }
      }
    }
  }

  lemma DebitTwice(open: seq<Option<nat>>, n: nat, m: nat)
    requires CanDebit(open, n)
    ensures CanDebit(open, n + m) <==> CanDebit(Debit(open, n), m)
    ensures CanDebit(open, n + m) ==> Debit(open, n + m) == Debit(Debit(open, n), m)
  {
    var once := Debit(open, n);
    if CanDebit(once, m) {
      forall i | 0 <= i < |open| && open[i].Some? ensures n + m <= open[i].value {
        assert once[i].Some?;
      }
    }
  }

  lemma DebitNothing(open: seq<Option<nat>>)
    ensures CanDebit(open, 0) && Debit(open, 0) == open
  {
  }

  lemma {:induction false} RunAppend(w: Walk, x: seq<Byte>, y: seq<Byte>)
    ensures Run(w, x + y) == match Run(w, x) case Some(mid) => Run(mid, y) case None => None
    decreases |x|
  {
    if x == [] {
      assert x + y == y;
    } else {
      assert (x + y)[1..] == x[1..] + y;
      var step := Consume(w, x[0]);
      if step.Go? {
        RunAppend(step.next, x[1..], y);
      }
    }
  }

  function After1(step: Step): Option<Walk> {
    if step.Go? then Some(step.next) else None
  }

  lemma RunSnoc(w: Walk, s: seq<Byte>, k: nat)
    requires k < |s|
    ensures Run(w, s[..k + 1]) == match Run(w, s[..k]) case Some(x) => After1(Consume(x, s[k])) case None => None
  {
    assert s[..k + 1] == s[..k] + [s[k]];
    RunAppend(w, s[..k], [s[k]]);
    if Run(w, s[..k]).Some? {
      var x := Run(w, s[..k]).value;
      assert [s[k]][1..] == [];
    }
  }

  /** What a walker does with a stream is what it does after the first `n` bytes. */
  lemma RunSplit(w: Walk, s: seq<Byte>, n: nat)
    requires n <= |s|
    ensures Run(w, s) == match Run(w, s[..n]) case Some(mid) => Run(mid, s[n..]) case None => None
  {
    assert s == s[..n] + s[n..];
    RunAppend(w, s[..n], s[n..]);
  }

  lemma MarksSplit(w: Walk, s: seq<Byte>, n: nat, i: nat)
    requires n <= i && n <= |s| && Run(w, s[..n]).Some?
    ensures Marks(w, s, i) <==> Marks(Run(w, s[..n]).value, s[n..], i - n)
  {
    if i < |s| {
      assert s[..i][..n] == s[..n] && s[..i][n..] == s[n..][..i - n];
      RunSplit(w, s[..i], n);
    }
  }

  /** The walker `k` bytes into a header at the front of `s`. */
  function InHeader(open: seq<Option<nat>>, seen: bool, s: seq<Byte>, k: nat): Walk
    requires k <= |s| && CanDebit(open, k)
  {
    Walk(Header(s[..k]), Debit(open, k), seen)
  }

  /** The header of `s` needs more than `k` bytes. */
  predicate Short(s: seq<Byte>, k: nat)
    requires k <= |s|
  {
    k < HEADER_MIN || k < HeaderLen(s)
  }

  lemma HeaderStep(open: seq<Option<nat>>, seen: bool, s: seq<Byte>, k: nat)
    requires k < |s| && Short(s, k) && CanDebit(open, k)
    ensures !CanDebit(open, k + 1) ==> Consume(InHeader(open, seen, s, k), s[k]).Stop?
    ensures CanDebit(open, k + 1) && Short(s, k + 1) ==>
              Consume(InHeader(open, seen, s, k), s[k]) == Go(InHeader(open, seen, s, k + 1), None)
    ensures CanDebit(open, k + 1) && !Short(s, k + 1) ==>
              && ParseHeader(s).Some? && ParseHeader(s).value.headerLen == k + 1
              && Consume(InHeader(open, seen, s, k), s[k]) == Enter(open, seen, s)
  {
    DebitTwice(open, k, 1);
    assert s[..k] + [s[k]] == s[..k + 1];
    if HEADER_MIN <= k + 1 {
      SameHeaderLen(s[..k + 1], s);
    }
  }

  /** What opening the box at the front of `s` does, once its header has been debited. */
  function Enter(open: seq<Option<nat>>, seen: bool, s: seq<Byte>): Step
    requires ParseHeader(s).Some? && CanDebit(open, ParseHeader(s).value.headerLen)
  {
    var n := ParseHeader(s).value.headerLen;
    SameHeaderLen(s[..n], s);
    OpenBox(InHeader(open, seen, s, n))
  }

  /** Until the header is complete the walker only collects it. */
  lemma {:induction false} HeaderWalk(open: seq<Option<nat>>, seen: bool, s: seq<Byte>, k: nat)
    requires k <= |s| && CanDebit(open, k) && Short(s, k)
    ensures Run(Walk(Header([]), open, seen), s[..k]) == Some(InHeader(open, seen, s, k))
  {
    if k == 0 {
      assert s[..0] == [];
      DebitNothing(open);
    } else {
      HeaderWalk(open, seen, s, k - 1);
      HeaderStep(open, seen, s, k - 1);
      RunSnoc(Walk(Header([]), open, seen), s, k - 1);
    }
  }

  /** A header that fits is read to its last byte, and the box it declares is opened. */
  lemma HeaderRun(open: seq<Option<nat>>, seen: bool, s: seq<Byte>)
    requires ParseHeader(s).Some? && CanDebit(open, ParseHeader(s).value.headerLen)
    ensures Run(Walk(Header([]), open, seen), s[..ParseHeader(s).value.headerLen]) == After1(Enter(open, seen, s))
  {
    hide OpenBox;
    var last := ParseHeader(s).value.headerLen - 1;
    HeaderWalk(open, seen, s, last);
    HeaderStep(open, seen, s, last);
    RunSnoc(Walk(Header([]), open, seen), s, last);
  }

  /** No box starts inside a header. */
  lemma HeaderMarks(open: seq<Option<nat>>, seen: bool, s: seq<Byte>, i: nat)
    requires ParseHeader(s).Some? && CanDebit(open, ParseHeader(s).value.headerLen)
    requires i < ParseHeader(s).value.headerLen
    ensures Marks(Walk(Header([]), open, seen), s, i) <==> i == 0
  {
    HeaderWalk(open, seen, s, i);
  }

  /** No stream is accepted if a header is cut short, by the stream's end or by a container's. */
  lemma BadHeaderRejected(open: seq<Option<nat>>, seen: bool, s: seq<Byte>)
    requires s != [] && Nested(open)
    requires ParseHeader(s).None? || !CanDebit(open, ParseHeader(s).value.headerLen)
    ensures !Accepts(Walk(Header([]), open, seen), s)
  {
    if CanDebit(open, |s|) && ParseHeader(s).None? {
      HeaderWalk(open, seen, s, |s|);
      assert s[..|s|] == s;
    } else {
      var r := Room(open).value;
      RoomBounds(open, r);
      RoomBounds(open, r + 1);
      HeaderWalk(open, seen, s, r);
      HeaderStep(open, seen, s, r);
      RunSnoc(Walk(Header([]), open, seen), s, r);
      RunSplit(Walk(Header([]), open, seen), s, r + 1);
    }
  }

  function InPayload(open: seq<Option<nat>>, seen: bool, n: Pos, k: nat): Walk
    requires k < n && CanDebit(open, n)
  {
    Walk(Payload(n - k), Debit(open, k), seen)
  }

  lemma PayloadStep(open: seq<Option<nat>>, seen: bool, n: Pos, k: nat, b: Byte)
    requires k < n && CanDebit(open, n)
    ensures Consume(InPayload(open, seen, n, k), b) ==
            Go(if k + 1 < n then InPayload(open, seen, n, k + 1) else PayloadEnd(open, seen, n), None)
  {
    DebitTwice(open, k, 1);
  }

  function PayloadEnd(open: seq<Option<nat>>, seen: bool, n: Pos): Walk
    requires CanDebit(open, n)
  {
    CloseExhausted(Walk(Header([]), Debit(open, n), seen))
  }

  lemma {:induction false} PayloadWalk(open: seq<Option<nat>>, seen: bool, n: Pos, s: seq<Byte>, k: nat)
    requires k < n && k <= |s| && CanDebit(open, n)
    ensures Run(Walk(Payload(n), open, seen), s[..k]) == Some(InPayload(open, seen, n, k))
  {
    if k == 0 {
      assert s[..0] == [];
      DebitNothing(open);
    } else {
      PayloadWalk(open, seen, n, s, k - 1);
      PayloadStep(open, seen, n, k - 1, s[k - 1]);
      RunSnoc(Walk(Payload(n), open, seen), s, k - 1);
    }
  }

  /** A payload that fits is counted to its last byte. */
  lemma PayloadRun(open: seq<Option<nat>>, seen: bool, n: Pos, s: seq<Byte>)
    requires CanDebit(open, n)
    ensures |s| < n ==> !Accepts(Walk(Payload(n), open, seen), s)
    ensures n <= |s| ==> Run(Walk(Payload(n), open, seen), s[..n]) == Some(PayloadEnd(open, seen, n))
  {
    if |s| < n {
      PayloadWalk(open, seen, n, s, |s|);
      assert s[..|s|] == s;
    } else {
      PayloadWalk(open, seen, n, s, n - 1);
      PayloadStep(open, seen, n, n - 1, s[n - 1]);
      RunSnoc(Walk(Payload(n), open, seen), s, n - 1);
    }
  }

  lemma {:induction false} ToEndRun(open: seq<Option<nat>>, seen: bool, s: seq<Byte>)
    ensures Run(Walk(PayloadToEnd, open, seen), s) == Some(Walk(PayloadToEnd, open, seen))
    decreases |s|
  {
    if s != [] {
      ToEndRun(open, seen, s[1..]);
    }
  }

  // The grammar unfolded by one box.

  /** A finished container can be popped without changing what must follow. */
  lemma {:induction false} RestPops(open: seq<Option<nat>>, s: seq<Byte>, i: nat)
    requires Nested(open)
    ensures var popped := PopExhausted(open);
            && Nested(popped) && PopExhausted(popped) == popped
            && (Rest(open, s, false) <==> Rest(popped, s, false))
            && (RestStarts(open, s, i) <==> RestStarts(popped, s, i))
    decreases |open|
  {
    if open != [] && open[|open| - 1] == Some(0) {
      var outer := open[..|open| - 1];
      DebitNothing(outer);
      assert s[..0] == [] && s[0..] == s;
      RestPops(outer, s, i);
    }
  }

  lemma NestedDebit(open: seq<Option<nat>>, n: nat)
    requires Nested(open) && CanDebit(open, n)
    ensures Nested(Debit(open, n))
  {
  }

  lemma Slices(s: seq<Byte>, headerLen: nat, size: nat, r: nat)
    requires headerLen <= size <= r <= |s|
    ensures s[..r][headerLen..size] == s[headerLen..size]
    ensures s[..r][size..] == s[size..][..r - size]
    ensures s[size..][r - size..] == s[r..]
  {
  }

  /** The first box of a bounded run of boxes. */
  lemma BoxesFront(s: seq<Byte>, r: nat, depth: nat)
    requires FitsFront(s) && ParseHeader(s).value.size.value <= r <= |s|
    ensures var box := ParseHeader(s).value;
            var size := box.size.value;
            Boxes(s[..r], depth) <==>
              && (IsContainer(box.kind) ==> depth < MAX_DEPTH && Boxes(s[box.headerLen..size], depth + 1))
              && Boxes(s[size..][..r - size], depth)
  {
    hide ParseHeader, IsContainer, MayBegin;
    var box := ParseHeader(s).value;
    ParsePrefix(s, r);
    Slices(s, box.headerLen, box.size.value, r);
  }

  lemma PrefixParts(s: seq<Byte>, r: nat)
    requires FitsFront(s) && ParseHeader(s).value.size.value <= r <= |s|
    ensures var box := ParseHeader(s).value;
            var size := box.size.value;
            && ParseHeader(s[..r]) == ParseHeader(s)
            && Inner(s[..r]) == s[box.headerLen..size] && After(s[..r]) == s[size..][..r - size]
  {
    ParsePrefix(s, r);
    Slices(s, ParseHeader(s).value.headerLen, ParseHeader(s).value.size.value, r);
  }

  lemma StartsFront(s: seq<Byte>, r: nat, i: nat)
    requires FitsFront(s) && ParseHeader(s).value.size.value <= r <= |s|
    ensures var box := ParseHeader(s).value;
            var size := box.size.value;
            StartsBox(s[..r], i) <==>
              || i == 0
              || (IsContainer(box.kind) && box.headerLen <= i && StartsBox(s[box.headerLen..size], i - box.headerLen))
              || (size <= i && StartsBox(s[size..][..r - size], i - size))
  {
    hide ParseHeader, IsContainer, MayBegin;
    PrefixParts(s, r);
  }

  lemma OuterDebits(open: seq<Option<nat>>, size: nat, r: nat)
    requires Nested(open) && Room(open) == Some(r) && size <= r
    ensures CanDebit(open, size) && CanDebit(open[..|open| - 1], r)
    ensures var outer := open[..|open| - 1];
            var less := Debit(open, size);
            && Nested(less) && Room(less) == Some(r - size)
            && CanDebit(less[..|less| - 1], r - size) && Debit(less[..|less| - 1], r - size) == Debit(outer, r)
  {
    var outer := open[..|open| - 1];
    RoomBounds(open, r);
    RoomBounds(open, size);
    NestedDebit(open, size);
    assert Debit(open, size)[..|open| - 1] == Debit(outer, size);
    DebitTwice(outer, size, r - size);
  }

  lemma RestBounded(open: seq<Option<nat>>, s: seq<Byte>, r: nat)
    requires Nested(open) && Room(open) == Some(r)
    ensures CanDebit(open[..|open| - 1], r)
    ensures var outer := Debit(open[..|open| - 1], r);
            Nested(outer) && (Rest(open, s, false) <==> r <= |s| && Boxes(s[..r], |open|) && Rest(outer, s[r..], false))
  {
    hide Boxes, TopLevel;
    RoomBounds(open, r);
  }

  /** One whole box comes off the front of what a bounded container must still hold. */
  lemma UnfoldBounded(open: seq<Option<nat>>, s: seq<Byte>, size: nat, r: nat)
    requires Nested(open) && Room(open) == Some(r) && size <= r && size <= |s|
    ensures CanDebit(open, size) && Nested(Debit(open, size))
    ensures Rest(open, s, false) ==> r <= |s| && Boxes(s[..r], |open|)
    ensures r <= |s| && Boxes(s[..r], |open|) && Boxes(s[size..][..r - size], |open|) ==>
              (Rest(open, s, false) <==> Rest(Debit(open, size), s[size..], false))
    ensures Rest(Debit(open, size), s[size..], false) ==> r <= |s| && Boxes(s[size..][..r - size], |open|)
  {
    hide Boxes, TopLevel, Rest;
    OuterDebits(open, size, r);
    RestBounded(open, s, r);
    RestBounded(Debit(open, size), s[size..], r - size);
    if r <= |s| {
      Slices(s, 0, size, r);
    }
  }

  /** One whole box comes off the front of what must follow. */
  lemma UnfoldBox(open: seq<Option<nat>>, s: seq<Byte>, first: bool)
    requires Nested(open) && (first ==> open == [])
    requires s != [] && FitsFront(s)
    requires Room(open).Some? ==> ParseHeader(s).value.size.value <= Room(open).value
    ensures var box := ParseHeader(s).value;
            var size := box.size.value;
            && CanDebit(open, size) && Nested(Debit(open, size))
            && (Rest(open, s, first) <==>
                  && (first ==> MayBegin(box.kind))
                  && (IsContainer(box.kind) ==> |open| < MAX_DEPTH && Boxes(s[box.headerLen..size], |open| + 1))
                  && Rest(Debit(open, size), s[size..], false))
  {
    hide ParseHeader, IsContainer, MayBegin;
    var box := ParseHeader(s).value;
    var size := box.size.value;
    if Room(open).Some? {
      var r := Room(open).value;
      UnfoldBounded(open, s, size, r);
      if r <= |s| {
        BoxesFront(s, r, |open|);
      }
    } else {
      RoomBounds(open, size);
      assert Debit(open, size) == open;
    }
  }

  lemma StartsBounded(open: seq<Option<nat>>, s: seq<Byte>, r: nat, i: nat)
    requires Nested(open) && Room(open) == Some(r) && r <= |s|
    ensures CanDebit(open[..|open| - 1], r)
    ensures RestStarts(open, s, i) <==>
              StartsBox(s[..r], i) || (r <= i && RestStarts(Debit(open[..|open| - 1], r), s[r..], i - r))
  {
    hide StartsBox;
    RoomBounds(open, r);
  }

  /** One whole box comes off the front of a bounded container, for the positions at which boxes start. */
  lemma UnfoldStartsBounded(open: seq<Option<nat>>, s: seq<Byte>, size: nat, r: nat, i: nat)
    requires Nested(open) && Room(open) == Some(r) && size <= r <= |s| && size <= i
    ensures CanDebit(open, size)
    ensures (StartsBox(s[..r], i) <==> StartsBox(s[size..][..r - size], i - size)) ==>
              (RestStarts(open, s, i) <==> RestStarts(Debit(open, size), s[size..], i - size))
    ensures RestStarts(open, s, i) <==>
              StartsBox(s[..r], i) || (r <= i && CanDebit(open[..|open| - 1], r) && RestStarts(Debit(open[..|open| - 1], r), s[r..], i - r))
    ensures RestStarts(Debit(open, size), s[size..], i - size) <==>
              || StartsBox(s[size..][..r - size], i - size)
              || (r <= i && CanDebit(open[..|open| - 1], r) && RestStarts(Debit(open[..|open| - 1], r), s[r..], i - r))
  {
    hide StartsBox, RestStarts;
    OuterDebits(open, size, r);
    StartsBounded(open, s, r, i);
    StartsBounded(Debit(open, size), s[size..], r - size, i - size);
    Slices(s, 0, size, r);
  }

  /** The same box, for the positions at which boxes start. */
  lemma UnfoldStarts(open: seq<Option<nat>>, s: seq<Byte>, i: nat)
    requires Nested(open) && s != [] && FitsFront(s) && Rest(open, s, false)
    requires Room(open).Some? ==> ParseHeader(s).value.size.value <= Room(open).value
    ensures var box := ParseHeader(s).value;
            var size := box.size.value;
            && CanDebit(open, size)
            && (RestStarts(open, s, i) <==>
                  || i == 0
                  || (IsContainer(box.kind) && box.headerLen <= i && StartsBox(s[box.headerLen..size], i - box.headerLen))
                  || (size <= i && RestStarts(Debit(open, size), s[size..], i - size)))
  {
    hide ParseHeader, IsContainer, MayBegin, Boxes, TopLevel;
    var box := ParseHeader(s).value;
    var size := box.size.value;
    if Room(open).Some? {
      var r := Room(open).value;
      UnfoldStartsInside(open, s, r, i);
    } else {
      RoomBounds(open, size);
      assert Debit(open, size) == open;
    }
  }

  lemma UnfoldStartsInside(open: seq<Option<nat>>, s: seq<Byte>, r: nat, i: nat)
    requires Nested(open) && Room(open) == Some(r) && FitsFront(s) && ParseHeader(s).value.size.value <= r <= |s|
    ensures var box := ParseHeader(s).value;
            var size := box.size.value;
            && CanDebit(open, size)
            && (RestStarts(open, s, i) <==>
                  || i == 0
                  || (IsContainer(box.kind) && box.headerLen <= i && StartsBox(s[box.headerLen..size], i - box.headerLen))
                  || (size <= i && RestStarts(Debit(open, size), s[size..], i - size)))
  {
    hide ParseHeader, IsContainer, StartsBox, RestStarts;
    var size := ParseHeader(s).value.size.value;
    OuterDebits(open, size, r);
    StartsFront(s, r, i);
    StartsBounded(open, s, r, i);
    if size <= i {
      UnfoldStartsBounded(open, s, size, r, i);
    }
  }

  lemma InsideDebits(open: seq<Option<nat>>, headerLen: nat, size: nat)
    requires Nested(open) && headerLen <= size && CanDebit(open, size)
    ensures CanDebit(open, headerLen) && Nested(Debit(open, size))
    ensures var inside := Debit(open, headerLen) + [Some(size - headerLen)];
            && Nested(inside) && Room(inside) == Some(size - headerLen)
            && inside[..|inside| - 1] == Debit(open, headerLen)
            && CanDebit(inside[..|inside| - 1], size - headerLen)
            && Debit(inside[..|inside| - 1], size - headerLen) == Debit(open, size)
  {
    var inside := Debit(open, headerLen) + [Some(size - headerLen)];
    assert inside[..|inside| - 1] == Debit(open, headerLen);
    DebitTwice(open, headerLen, size - headerLen);
    NestedDebit(open, headerLen);
    NestedDebit(open, size);
  }

  /** Descending into a container: its children, then what follows it. */
  lemma UnfoldContainer(open: seq<Option<nat>>, s: seq<Byte>, headerLen: nat, size: nat, i: nat)
    requires Nested(open) && headerLen <= size && CanDebit(open, size) && headerLen <= |s|
    ensures CanDebit(open, headerLen) && Nested(Debit(open, size))
    ensures var inside := Debit(open, headerLen) + [Some(size - headerLen)];
            && Nested(inside)
            && (Rest(inside, s[headerLen..], false) <==>
                  size <= |s| && Boxes(s[headerLen..size], |open| + 1) && Rest(Debit(open, size), s[size..], false))
            && (size <= |s| ==>
                  (RestStarts(inside, s[headerLen..], i) <==>
                     || StartsBox(s[headerLen..size], i)
                     || (size <= i + headerLen && RestStarts(Debit(open, size), s[size..], i + headerLen - size))))
  {
    hide ParseHeader, IsContainer, MayBegin;
    InsideDebits(open, headerLen, size);
    var payload := size - headerLen;
    if size <= |s| {
      assert s[headerLen..][..payload] == s[headerLen..size];
      assert s[headerLen..][payload..] == s[size..];
    }
  }

  // The walker is the grammar.

  /** The walk from a box start and what the grammar wants there agree, on acceptance and on box starts. */
  ghost predicate Agrees(w: Walk, s: seq<Byte>)
    requires Nested(w.open)
  {
    && (Accepts(w, s) <==> Rest(w.open, s, !w.seenFirst))
    && (Accepts(w, s) ==> forall i: nat :: i < |s| ==> (Marks(w, s, i) <==> RestStarts(w.open, s, i)))
  }

  lemma {:induction false} PopShortens(open: seq<Option<nat>>)
    ensures PopExhausted(open) <= open
    ensures PopExhausted(open) == open ==> Room(open) != Some(0)
  {
    if open != [] && open[|open| - 1] == Some(0) {
      PopShortens(open[..|open| - 1]);
    }
  }

  /** The cases in which no box can be read: the walker and the grammar both refuse. */
  lemma RefusesFirst(w: Walk, s: seq<Byte>)
    requires Ready(w) && s != []
    requires ParseHeader(s).None? || !CanDebit(w.open, ParseHeader(s).value.headerLen)
    ensures !Accepts(w, s) && !Rest(w.open, s, !w.seenFirst)
  {
    BadHeaderRejected(w.open, w.seenFirst, s);
    PopShortens(w.open);
    if Room(w.open).Some? && Room(w.open).value <= |s| {
      ParsePrefix(s, Room(w.open).value);
      if ParseHeader(s).Some? {
        RoomBounds(w.open, ParseHeader(s).value.headerLen);
      }
      assert s[..Room(w.open).value] != [];
    }
  }

  /** The rules a complete header must meet to open a box. */
  predicate MayOpen(open: seq<Option<nat>>, seen: bool, box: Box) {
    && (seen || MayBegin(box.kind))
    && (box.size.None? ==> open == [])
    && (box.size.Some? ==> box.headerLen <= box.size.value)
    && (box.size.Some? && Room(open).Some? ==> box.size.value <= Room(open).value)
    && (IsContainer(box.kind) ==> |open| != MAX_DEPTH)
  }

  /** Where the walker is once a header has opened a box. */
  function Entered(open: seq<Option<nat>>, box: Box): Walk
    requires CanDebit(open, box.headerLen) && (box.size.Some? ==> box.headerLen <= box.size.value)
  {
    var less := Debit(open, box.headerLen);
    var payload := if box.size.None? then None else Some(box.size.value - box.headerLen);
    if IsContainer(box.kind) then Walk(Header([]), PopExhausted(less + [payload]), true)
    else if payload.None? then Walk(PayloadToEnd, less, true)
    else if payload.value == 0 then Walk(Header([]), PopExhausted(less), true)
    else Walk(Payload(payload.value), less, true)
  }

  lemma HeaderCopy(s: seq<Byte>)
    requires ParseHeader(s).Some?
    ensures ParseHeader(s[..ParseHeader(s).value.headerLen]) == ParseHeader(s)
  {
    ParsePrefix(s, ParseHeader(s).value.headerLen);
  }

  lemma EnterGoes(open: seq<Option<nat>>, seen: bool, s: seq<Byte>)
    requires ParseHeader(s).Some? && CanDebit(open, ParseHeader(s).value.headerLen)
    ensures Enter(open, seen, s).Go? <==> MayOpen(open, seen, ParseHeader(s).value)
    ensures Enter(open, seen, s).Go? ==> Enter(open, seen, s).next == Entered(open, ParseHeader(s).value)
  {
    HeaderCopy(s);
  }

  /** A complete header opens its box, or ends the walk. */
  lemma HeaderLeads(w: Walk, s: seq<Byte>)
    requires Ready(w) && ParseHeader(s).Some? && CanDebit(w.open, ParseHeader(s).value.headerLen)
    ensures var box := ParseHeader(s).value;
            && (!MayOpen(w.open, w.seenFirst, box) ==> !Accepts(w, s))
            && (MayOpen(w.open, w.seenFirst, box) ==>
                  && Run(w, s[..box.headerLen]) == Some(Entered(w.open, box))
                  && (Accepts(w, s) <==> Accepts(Entered(w.open, box), s[box.headerLen..])))
  {
    HeaderRun(w.open, w.seenFirst, s);
    EnterGoes(w.open, w.seenFirst, s);
    RunSplit(w, s, ParseHeader(s).value.headerLen);
  }

  /** A header that cannot open a box here: the grammar refuses it too. */
  lemma RefusesHeader(w: Walk, s: seq<Byte>)
    requires Ready(w) && s != [] && ParseHeader(s).Some? && CanDebit(w.open, ParseHeader(s).value.headerLen)
    requires !MayOpen(w.open, w.seenFirst, ParseHeader(s).value)
    ensures !Accepts(w, s) && !Rest(w.open, s, !w.seenFirst)
  {
    HeaderLeads(w, s);
    PopShortens(w.open);
    if Room(w.open).Some? && Room(w.open).value <= |s| {
      RoomBounds(w.open, ParseHeader(s).value.headerLen);
      ParsePrefix(s, Room(w.open).value);
      assert s[..Room(w.open).value] != [];
    }
  }

  lemma NestedPush(open: seq<Option<nat>>, payload: Option<nat>)
    requires Nested(open) && (payload.None? ==> open == [])
    requires payload.Some? && Room(open).Some? ==> payload.value <= Room(open).value
    ensures Nested(open + [payload])
  {
  }

  /** Popping finished containers makes a walker ready, and changes nothing it agrees on. */
  lemma PoppedReady(open: seq<Option<nat>>, s: seq<Byte>)
    requires Nested(open) && |open| <= MAX_DEPTH
    ensures var w := Walk(Header([]), PopExhausted(open), true);
            && Ready(w)
            && (Rest(open, s, false) <==> Rest(w.open, s, false))
            && forall i :: RestStarts(open, s, i) <==> RestStarts(w.open, s, i)
  {
    RestPops(open, s, 0);
    PopShortens(open);
    forall i ensures RestStarts(open, s, i) <==> RestStarts(PopExhausted(open), s, i) {
      RestPops(open, s, i);
    }
  }

  predicate OpensHere(w: Walk, s: seq<Byte>) {
    && ParseHeader(s).Some? && CanDebit(w.open, ParseHeader(s).value.headerLen)
    && MayOpen(w.open, w.seenFirst, ParseHeader(s).value)
  }

  lemma OpenEndedLeads(w: Walk, s: seq<Byte>)
    requires Ready(w) && OpensHere(w, s) && ParseHeader(s).value.size.None?
    ensures var box := ParseHeader(s).value;
            && w.open == []
            && Entered(w.open, box) == if IsContainer(box.kind) then Walk(Header([]), [None], true) else Walk(PayloadToEnd, [], true)
  {
    assert Debit([], ParseHeader(s).value.headerLen) == [];
  }

  lemma OpenEndedMarks(w: Walk, s: seq<Byte>, i: nat)
    requires Ready(w) && OpensHere(w, s) && ParseHeader(s).value.size.None? && i < |s|
    requires var box := ParseHeader(s).value;
             IsContainer(box.kind) ==>
               Accepts(Walk(Header([]), [None], true), s[box.headerLen..]) &&
               Agrees(Walk(Header([]), [None], true), s[box.headerLen..])
    ensures Marks(w, s, i) <==> RestStarts(w.open, s, i)
  {
    var box := ParseHeader(s).value;
    var n := box.headerLen;
    OpenEndedLeads(w, s);
    if i < n {
      HeaderMarks(w.open, w.seenFirst, s, i);
    } else {
      HeaderLeads(w, s);
      MarksSplit(w, s, n, i);
      if IsContainer(box.kind) {
        assert Marks(Walk(Header([]), [None], true), s[n..], i - n) <==> RestStarts([None], s[n..], i - n);
      } else {
        ToEndRun([], true, s[n..][..i - n]);
      }
    }
  }

  /** A box that runs to the end of the stream. */
  lemma {:induction false} AgreesOpenEnded(w: Walk, s: seq<Byte>)
    requires Ready(w) && OpensHere(w, s) && ParseHeader(s).value.size.None?
    ensures Agrees(w, s)
    decreases |s|, 0
  {
    hide ParseHeader, IsContainer, MayBegin;
    var box := ParseHeader(s).value;
    OpenEndedLeads(w, s);
    HeaderLeads(w, s);
    if IsContainer(box.kind) {
      WalkerMeetsGrammar(Walk(Header([]), [None], true), s[box.headerLen..]);
    } else {
      ToEndRun([], true, s[box.headerLen..]);
    }
    if Accepts(w, s) {
      forall i: nat | i < |s| ensures Marks(w, s, i) <==> RestStarts(w.open, s, i) {
        OpenEndedMarks(w, s, i);
      }
    }
  }

  /** A header that opens a container of known size. */
  predicate OpensContainer(w: Walk, s: seq<Byte>) {
    OpensHere(w, s) && ParseHeader(s).value.size.Some? && IsContainer(ParseHeader(s).value.kind)
  }

  /** A header that opens a box whose payload is counted. */
  predicate OpensOpaque(w: Walk, s: seq<Byte>) {
    OpensHere(w, s) && ParseHeader(s).value.size.Some? && !IsContainer(ParseHeader(s).value.kind)
  }

  /** Inside the container just opened, ready for its first child or for what follows it. */
  function Inside(w: Walk, s: seq<Byte>): Walk
    requires OpensContainer(w, s)
  {
    Entered(w.open, ParseHeader(s).value)
  }

  lemma ContainerStep(w: Walk, s: seq<Byte>)
    requires Ready(w) && OpensContainer(w, s)
    ensures var box := ParseHeader(s).value;
            && CanDebit(w.open, box.size.value)
            && Nested(Stacked(w, s)) && |Stacked(w, s)| <= MAX_DEPTH
            && Inside(w, s) == Walk(Header([]), PopExhausted(Stacked(w, s)), true)
  {
    var box := ParseHeader(s).value;
    RoomBounds(w.open, box.size.value);
    InsideDebits(w.open, box.headerLen, box.size.value);
  }

  /** The stack inside the container just opened, before finished containers are popped. */
  function Stacked(w: Walk, s: seq<Byte>): seq<Option<nat>>
    requires OpensContainer(w, s)
  {
    var box := ParseHeader(s).value;
    Debit(w.open, box.headerLen) + [Some(box.size.value - box.headerLen)]
  }

  /** What must follow inside the container just opened, once finished containers are popped. */
  lemma InsideFollows(open: seq<Option<nat>>, s: seq<Byte>, n: nat, size: nat)
    requires Nested(open) && n <= size && n <= |s| && CanDebit(open, size)
    ensures CanDebit(open, n) && Nested(Debit(open, size))
    ensures var inside := PopExhausted(Debit(open, n) + [Some(size - n)]);
            && Nested(inside)
            && (Rest(inside, s[n..], false) <==>
                  size <= |s| && Boxes(s[n..size], |open| + 1) && Rest(Debit(open, size), s[size..], false))
  {
    hide ParseHeader, IsContainer, MayBegin, Boxes, Rest, PopExhausted;
    UnfoldContainer(open, s, n, size, 0);
    RestPops(Debit(open, n) + [Some(size - n)], s[n..], 0);
  }

  lemma InsideStarts(open: seq<Option<nat>>, s: seq<Byte>, n: nat, size: nat, i: nat)
    requires Nested(open) && n <= size <= |s| && CanDebit(open, size)
    ensures CanDebit(open, n)
    ensures RestStarts(PopExhausted(Debit(open, n) + [Some(size - n)]), s[n..], i) <==>
              || StartsBox(s[n..size], i)
              || (size <= i + n && RestStarts(Debit(open, size), s[size..], i + n - size))
  {
    hide ParseHeader, IsContainer, MayBegin, Boxes, Rest, RestStarts, StartsBox, PopExhausted;
    UnfoldContainer(open, s, n, size, i);
    RestPops(Debit(open, n) + [Some(size - n)], s[n..], i);
  }

  /** Taking a whole container off the front is entering it and then leaving it. */
  lemma EnterOrSkip(open: seq<Option<nat>>, s: seq<Byte>, first: bool, box: Box, size: nat)
    requires Nested(open) && s != [] && |open| < MAX_DEPTH && (first ==> open == [] && MayBegin(box.kind))
    requires ParseHeader(s) == Some(box) && box.size == Some(size) && IsContainer(box.kind)
    requires box.headerLen <= size <= |s| && (Room(open).Some? ==> size <= Room(open).value)
    ensures CanDebit(open, box.headerLen)
    ensures var inside := PopExhausted(Debit(open, box.headerLen) + [Some(size - box.headerLen)]);
            Nested(inside) && (Rest(inside, s[box.headerLen..], false) <==> Rest(open, s, first))
  {
    hide ParseHeader, IsContainer, MayBegin, Boxes, Rest, PopExhausted;
    UnfoldBox(open, s, first);
    InsideFollows(open, s, box.headerLen, size);
  }

  /** A container of known size: what the grammar wants of it, inside and after. */
  lemma ContainerRest(w: Walk, s: seq<Byte>)
    requires Ready(w) && s != [] && OpensContainer(w, s) && |w.open| < MAX_DEPTH
    ensures var n := ParseHeader(s).value.headerLen;
            && Nested(Inside(w, s).open)
            && (Rest(Inside(w, s).open, s[n..], false) <==> Rest(w.open, s, !w.seenFirst))
  {
    hide ParseHeader, IsContainer, MayBegin, Boxes, Rest, PopExhausted;
    var box := ParseHeader(s).value;
    ContainerStep(w, s);
    if box.size.value <= |s| {
      EnterOrSkip(w.open, s, !w.seenFirst, box, box.size.value);
    } else {
      InsideFollows(w.open, s, box.headerLen, box.size.value);
      TooLongRefused(w, s);
    }
  }

  lemma ContainerMarks(w: Walk, s: seq<Byte>, i: nat)
    requires Ready(w) && s != [] && OpensContainer(w, s)
    requires Rest(w.open, s, false) && ParseHeader(s).value.size.value <= |s|
    requires var n := ParseHeader(s).value.headerLen;
             n <= i < |s| && (Marks(Inside(w, s), s[n..], i - n) <==> RestStarts(Inside(w, s).open, s[n..], i - n))
    ensures Marks(w, s, i) <==> RestStarts(w.open, s, i)
  {
    hide ParseHeader, IsContainer, MayBegin, Boxes, Rest, RestStarts, StartsBox, PopExhausted, Run;
    var n, size := ParseHeader(s).value.headerLen, ParseHeader(s).value.size.value;
    ContainerStep(w, s);
    HeaderLeads(w, s);
    MarksSplit(w, s, n, i);
    ContainerStarts(w.open, s, ParseHeader(s).value, size, i);
  }

  lemma UnfoldContainerStarts(open: seq<Option<nat>>, s: seq<Byte>, box: Box, size: nat, i: nat)
    requires Nested(open) && s != [] && Rest(open, s, false)
    requires ParseHeader(s) == Some(box) && box.size == Some(size) && IsContainer(box.kind)
    requires box.headerLen <= size <= |s| && (Room(open).Some? ==> size <= Room(open).value)
    requires box.headerLen <= i
    ensures CanDebit(open, size)
    ensures RestStarts(open, s, i) <==>
              || StartsBox(s[box.headerLen..size], i - box.headerLen)
              || (size <= i && RestStarts(Debit(open, size), s[size..], i - size))
  {
    UnfoldStarts(open, s, i);
  }

  lemma EnterOrSkipStarts(open: seq<Option<nat>>, s: seq<Byte>, n: nat, size: nat, i: nat)
    requires Nested(open) && n <= size <= |s| && CanDebit(open, size) && n <= i
    requires RestStarts(open, s, i) <==>
               StartsBox(s[n..size], i - n) || (size <= i && RestStarts(Debit(open, size), s[size..], i - size))
    ensures CanDebit(open, n)
    ensures RestStarts(open, s, i) <==> RestStarts(PopExhausted(Debit(open, n) + [Some(size - n)]), s[n..], i - n)
  {
    hide ParseHeader, IsContainer, MayBegin, Boxes, Rest, RestStarts, StartsBox, PopExhausted;
    InsideStarts(open, s, n, size, i - n);
    assert i - n + n - size == i - size;
  }

  lemma ContainerStarts(open: seq<Option<nat>>, s: seq<Byte>, box: Box, size: nat, i: nat)
    requires Nested(open) && s != [] && Rest(open, s, false)
    requires ParseHeader(s) == Some(box) && box.size == Some(size) && IsContainer(box.kind)
    requires box.headerLen <= size <= |s| && (Room(open).Some? ==> size <= Room(open).value)
    requires box.headerLen <= i
    ensures CanDebit(open, box.headerLen)
    ensures var inside := PopExhausted(Debit(open, box.headerLen) + [Some(size - box.headerLen)]);
            RestStarts(open, s, i) <==> RestStarts(inside, s[box.headerLen..], i - box.headerLen)
  {
    hide ParseHeader, IsContainer, MayBegin, Boxes, Rest, RestStarts, StartsBox, PopExhausted;
    UnfoldContainerStarts(open, s, box, size, i);
    EnterOrSkipStarts(open, s, box.headerLen, size, i);
  }

  lemma {:induction false} AgreesContainer(w: Walk, s: seq<Byte>)
    requires Ready(w) && s != [] && OpensContainer(w, s)
    ensures Agrees(w, s)
    decreases |s|, 0
  {
    hide ParseHeader, IsContainer, MayBegin;
    var n := ParseHeader(s).value.headerLen;
    ContainerStep(w, s);
    PoppedReady(Stacked(w, s), []);
    WalkerMeetsGrammar(Inside(w, s), s[n..]);
    HeaderLeads(w, s);
    ContainerRest(w, s);
    if Accepts(w, s) {
      FirstIsIrrelevant(w.open, s, !w.seenFirst);
      if |s| < ParseHeader(s).value.size.value {
        TooLongRefused(w, s);
      }
      forall i: nat | i < |s| ensures Marks(w, s, i) <==> RestStarts(w.open, s, i) {
        if i < n {
          UnfoldStarts(w.open, s, i);
          HeaderMarks(w.open, w.seenFirst, s, i);
        } else {
          assert Marks(Inside(w, s), s[n..], i - n) <==> RestStarts(Inside(w, s).open, s[n..], i - n);
          ContainerMarks(w, s, i);
        }
      }
    }
  }

  /** Past a counted box, at the start of whatever follows. */
  function Past(w: Walk, size: nat): Walk
    requires CanDebit(w.open, size)
  {
    Walk(Header([]), PopExhausted(Debit(w.open, size)), true)
  }

  lemma OpaqueAccepts(w: Walk, s: seq<Byte>)
    requires Ready(w) && s != [] && OpensOpaque(w, s)
    requires var size := ParseHeader(s).value.size.value;
             CanDebit(w.open, size) && (size <= |s| ==> Ready(Past(w, size)) && Agrees(Past(w, size), s[size..]))
    ensures Accepts(w, s) <==> Rest(w.open, s, !w.seenFirst)
  {
    hide ParseHeader, IsContainer, MayBegin;
    var size := ParseHeader(s).value.size.value;
    OpaqueRun(w, s);
    if |s| < size {
      TooLongRefused(w, s);
    } else {
      RunSplit(w, s, size);
      NestedDebit(w.open, size);
      PoppedReady(Debit(w.open, size), s[size..]);
      UnfoldBox(w.open, s, !w.seenFirst);
    }
  }

  lemma OpaqueBoxMarks(w: Walk, s: seq<Byte>, i: nat)
    requires Ready(w) && s != [] && OpensOpaque(w, s)
    requires var size := ParseHeader(s).value.size.value;
             CanDebit(w.open, size) && size <= |s| && Ready(Past(w, size)) && Agrees(Past(w, size), s[size..])
    requires Accepts(w, s) && Rest(w.open, s, false) && i < |s|
    ensures Marks(w, s, i) <==> RestStarts(w.open, s, i)
  {
    hide ParseHeader, IsContainer, MayBegin, Boxes, Rest, RestStarts, StartsBox, Run;
    var size := ParseHeader(s).value.size.value;
    OpaqueRun(w, s);
    UnfoldStarts(w.open, s, i);
    if i < size {
      OpaqueMarks(w, s, i);
    } else {
      RunSplit(w, s, size);
      MarksSplit(w, s, size, i);
      NestedDebit(w.open, size);
      PoppedReady(Debit(w.open, size), s[size..]);
      assert Marks(Past(w, size), s[size..], i - size) <==> RestStarts(Past(w, size).open, s[size..], i - size);
    }
  }

  /** A box whose payload is counted. */
  lemma {:induction false} AgreesOpaque(w: Walk, s: seq<Byte>)
    requires Ready(w) && s != [] && OpensOpaque(w, s)
    ensures Agrees(w, s)
    decreases |s|, 0
  {
    hide ParseHeader, IsContainer, MayBegin;
    var size := ParseHeader(s).value.size.value;
    OpaqueRun(w, s);
    NestedDebit(w.open, size);
    PoppedReady(Debit(w.open, size), []);
    if size <= |s| {
      WalkerMeetsGrammar(Past(w, size), s[size..]);
    }
    OpaqueAccepts(w, s);
    if Accepts(w, s) {
      FirstIsIrrelevant(w.open, s, !w.seenFirst);
      forall i: nat | i < |s| ensures Marks(w, s, i) <==> RestStarts(w.open, s, i) {
        OpaqueBoxMarks(w, s, i);
      }
    }
  }

  lemma FirstIsIrrelevant(open: seq<Option<nat>>, s: seq<Byte>, first: bool)
    requires Nested(open) && s != [] && Rest(open, s, first)
    ensures Rest(open, s, false)
  {
  }

  /** A box longer than what is left of the stream. */
  lemma TooLongRefused(w: Walk, s: seq<Byte>)
    requires Ready(w) && s != [] && ParseHeader(s).Some? && ParseHeader(s).value.size.Some?
    requires |s| < ParseHeader(s).value.size.value
    ensures !Rest(w.open, s, !w.seenFirst)
  {
    PopShortens(w.open);
    if Room(w.open).Some? && Room(w.open).value <= |s| {
      ParsePrefix(s, Room(w.open).value);
      assert s[..Room(w.open).value] != [];
    }
  }

  /** The header of a counted box leads into its payload. */
  lemma OpaqueStep(w: Walk, s: seq<Byte>)
    requires Ready(w) && OpensOpaque(w, s)
    ensures var box := ParseHeader(s).value;
            var n, size := box.headerLen, box.size.value;
            && n <= size && CanDebit(w.open, size) && CanDebit(Debit(w.open, n), size - n)
            && Debit(Debit(w.open, n), size - n) == Debit(w.open, size)
            && Run(w, s[..n]) == Some(if size == n then Past(w, size) else Walk(Payload(size - n), Debit(w.open, n), true))
  {
    hide ParseHeader, IsContainer, MayBegin, Run, Accepts;
    var box := ParseHeader(s).value;
    HeaderLeads(w, s);
    RoomBounds(w.open, box.size.value);
    DebitTwice(w.open, box.headerLen, box.size.value - box.headerLen);
  }

  /** The walker over a counted box: the header, then the payload. */
  lemma OpaqueRun(w: Walk, s: seq<Byte>)
    requires Ready(w) && OpensOpaque(w, s)
    ensures var size := ParseHeader(s).value.size.value;
            && CanDebit(w.open, size)
            && (|s| < size ==> !Accepts(w, s))
            && (size <= |s| ==> Run(w, s[..size]) == Some(Past(w, size)))
  {
    var n, size := ParseHeader(s).value.headerLen, ParseHeader(s).value.size.value;
    OpaqueStep(w, s);
    if size > n {
      PayloadRun(Debit(w.open, n), true, size - n, s[n..]);
    }
    if size <= |s| {
      assert s[..size][..n] == s[..n] && s[..size][n..] == s[n..][..size - n];
      RunSplit(w, s[..size], n);
    } else {
      RunSplit(w, s, n);
    }
  }

  /** No box starts inside a counted box. */
  lemma OpaqueMarks(w: Walk, s: seq<Byte>, i: nat)
    requires Ready(w) && OpensOpaque(w, s)
    requires i < ParseHeader(s).value.size.value <= |s|
    ensures Marks(w, s, i) <==> i == 0
  {
    var n, size := ParseHeader(s).value.headerLen, ParseHeader(s).value.size.value;
    if i < n {
      HeaderMarks(w.open, w.seenFirst, s, i);
    } else {
      OpaqueStep(w, s);
      MarksSplit(w, s, n, i);
      PayloadWalk(Debit(w.open, n), true, size - n, s[n..], i - n);
    }
  }

  /** From any box start on, the walker accepts exactly what the grammar wants there, and stands at exactly the box starts. */
  lemma {:induction false} WalkerMeetsGrammar(w: Walk, s: seq<Byte>)
    requires Ready(w)
    ensures Agrees(w, s)
    decreases |s|, 1
  {
    if s == [] {
      PopShortens(w.open);
    } else if ParseHeader(s).None? || !CanDebit(w.open, ParseHeader(s).value.headerLen) {
      RefusesFirst(w, s);
    } else if !MayOpen(w.open, w.seenFirst, ParseHeader(s).value) {
      RefusesHeader(w, s);
    } else if ParseHeader(s).value.size.None? {
      AgreesOpenEnded(w, s);
    } else if OpensContainer(w, s) {
      AgreesContainer(w, s);
    } else {
      AgreesOpaque(w, s);
    }
  }

  /** The walker accepts a stream exactly when it is a sequence of boxes. */
  lemma AcceptsExactlyStreams(s: seq<Byte>)
    ensures Accepts(START, s) <==> Stream(s)
  {
    WalkerMeetsGrammar(START, s);
  }

  /** Before each byte of an accepted stream, the walker is at a boundary exactly when that byte starts a box. */
  lemma BoundariesAreBoxStarts(s: seq<Byte>, i: nat)
    requires Accepts(START, s) && i < |s|
    ensures Run(START, s[..i]).Some?
    ensures AtBoundary(Run(START, s[..i]).value) <==> StartsBox(s, i)
  {
    WalkerMeetsGrammar(START, s);
    RunSplit(START, s, i);
    assert Marks(START, s, i) <==> RestStarts(START.open, s, i);
  }

  // What every reachable walker keeps.

  /** Containers nest within one another and within the depth bound; a counted payload fits all of them. */
  predicate Sound(w: Walk) {
    && Nested(w.open) && |w.open| <= MAX_DEPTH
    && (!w.seenFirst ==> w.open == [])
    && (AtBoundary(w) ==> PopExhausted(w.open) == w.open)
    && (w.state.Payload? ==> CanDebit(w.open, w.state.remaining))
    && (w.state.Header? && HEADER_MIN <= |w.state.got| ==> |w.state.got| < HeaderLen(w.state.got))
  }

  lemma PopSound(open: seq<Option<nat>>)
    requires Nested(open) && |open| <= MAX_DEPTH
    ensures Sound(Walk(Header([]), PopExhausted(open), true))
  {
    RestPops(open, [], 0);
    PopShortens(open);
  }

  lemma OpenBoxSound(open: seq<Option<nat>>, seen: bool, h: seq<Byte>)
    requires Nested(open) && |open| <= MAX_DEPTH && (!seen ==> open == [])
    requires HEADER_MIN <= |h| == HeaderLen(h)
    requires OpenBox(Walk(Header(h), open, seen)).Go?
    ensures Sound(OpenBox(Walk(Header(h), open, seen)).next)
  {
    hide IsContainer, MayBegin;
    var size := DeclaredSize(h);
    var payload := if size.None? then None else Some(size.value - HeaderLen(h));
    if IsContainer(Kind(h)) {
      NestedPush(open, payload);
      PopSound(open + [payload]);
    } else {
      PopSound(open);
      if payload.Some? {
        RoomBounds(open, payload.value);
      }
    }
  }

  lemma ConsumeSound(w: Walk, b: Byte)
    requires Sound(w)
    ensures Consume(w, b).Go? ==> Sound(Consume(w, b).next)
    ensures w.state.Payload? ==> Consume(w, b).Go?
  {
    hide OpenBox;
    if !w.state.PayloadToEnd? && CanDebit(w.open, 1) {
      var open := Debit(w.open, 1);
      NestedDebit(w.open, 1);
      match w.state
      case Header(got) =>
        var h := got + [b];
        if HEADER_MIN <= |h| && |h| == HeaderLen(h) {
          assert Consume(w, b) == OpenBox(Walk(Header(h), open, w.seenFirst));
          if OpenBox(Walk(Header(h), open, w.seenFirst)).Go? {
            OpenBoxSound(open, w.seenFirst, h);
          }
        } else if HEADER_MIN <= |got| {
          SameHeaderLen(got, h);
        }
      case Payload(remaining) =>
        DebitTwice(w.open, 1, remaining - 1);
        PopSound(open);
    }
  }

  lemma {:induction false} RunSound(w: Walk, s: seq<Byte>)
    requires Sound(w) && Run(w, s).Some?
    ensures Sound(Run(w, s).value)
    decreases |s|
  {
    hide Consume, Sound;
    if s != [] {
      ConsumeSound(w, s[0]);
      RunSound(Consume(w, s[0]).next, s[1..]);
    }
  }

  /** A box is only ever found to overrun its container while its header is read, never inside a payload. */
  lemma OverrunsOnlyInHeaders(s: seq<Byte>, b: Byte)
    requires Run(START, s).Some? && Consume(Run(START, s).value, b).Stop?
    ensures Run(START, s).value.state.Header?
  {
    RunSound(START, s);
    ConsumeSound(Run(START, s).value, b);
  }
}
