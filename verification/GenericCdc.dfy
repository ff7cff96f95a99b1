/** The generic-cdc-v1 chunker and its resynchronisation (src/chunker/generic.rs). */
module GenericCdc {
  import opened Bytes
  import opened Gear

  /** Whether a boundary falls after the last byte of what is buffered. */
  predicate CutAfter(t: Table, buffer: seq<Byte>) {
    && MIN_BYTES <= |buffer|
    && (MAX_BYTES <= |buffer| || Cuts(Hash(t, buffer), if |buffer| < TARGET_BYTES then GENERIC_STRICT else GENERIC_RELAXED))
  }

  /** The chunks cut so far, and what is buffered since. */
  datatype Chunking = Chunking(chunks: seq<seq<Byte>>, buffer: seq<Byte>)

  function Feed(t: Table, c: Chunking, b: Byte): Chunking {
    var buffer := c.buffer + [b];
    if CutAfter(t, buffer) then Chunking(c.chunks + [buffer], []) else c.(buffer := buffer)
  }

  function FeedAll(t: Table, c: Chunking, s: seq<Byte>): Chunking {
    if s == [] then c else Feed(t, FeedAll(t, c, s[..|s| - 1]), s[|s| - 1])
  }

  const FRESH := Chunking([], [])

  /** Every chunk of a whole payload. */
  function AllChunks(t: Table, s: seq<Byte>): seq<seq<Byte>> {
    var c := FeedAll(t, FRESH, s);
    c.chunks + if c.buffer == [] then [] else [c.buffer]
  }

  class GenericCdcChunker {
    const gear: GearHash
    var buffer: seq<Byte>

    /** The hash is the gear fold of exactly the buffered bytes. */
    ghost predicate Valid()
      reads this, gear
    {
      gear.hash == Hash(gear.table, buffer)
    }

    constructor (table: Table)
      ensures Valid() && fresh(gear) && gear.table == table && buffer == []
    {
      gear := new GearHash(table);
      buffer := [];
    }

    predicate CutHere()
      requires Valid()
      reads this, gear
      ensures CutHere() == CutAfter(gear.table, buffer)
    {
      var len := |buffer|;
      if len < MIN_BYTES then false
      else if len >= MAX_BYTES then true
      else Cuts(gear.hash, if len < TARGET_BYTES then GENERIC_STRICT else GENERIC_RELAXED)
    }

    method PushWindow(window: seq<Byte>) returns (chunks: seq<seq<Byte>>)
      requires Valid()
      modifies this, gear
      ensures Valid()
      ensures var fed := FeedAll(gear.table, Chunking([], old(buffer)), window);
              chunks == fed.chunks && buffer == fed.buffer
    {
      hide CutAfter, FoldFrom;
      chunks := [];
      for i := 0 to |window|
        invariant Valid()
        invariant FeedAll(gear.table, Chunking([], old(buffer)), window[..i]) == Chunking(chunks, buffer)
      {
        assert window[..i + 1][..i] == window[..i];
        HashPush(gear.table, buffer, window[i]);
        buffer := buffer + [window[i]];
        gear.Update(window[i]);
        if CutHere() {
          chunks := chunks + [buffer];
          buffer := [];
          gear.Reset();
        }
      }
      assert window[..|window|] == window;
    }

    method Finish() returns (chunks: seq<seq<Byte>>)
      requires Valid()
      modifies this, gear
      ensures Valid() && buffer == [] && chunks == if old(buffer) == [] then [] else [old(buffer)]
    {
      chunks := [];
      if buffer != [] {
        chunks := [buffer];
        buffer := [];
      }
      gear.Reset();
    }
  }

  // Laws of runs.

  lemma {:induction false} FeedAppend(t: Table, c: Chunking, x: seq<Byte>, y: seq<Byte>)
    ensures FeedAll(t, c, x + y) == FeedAll(t, FeedAll(t, c, x), y)
  {
    hide Feed;
    if y == [] {
      assert x + y == x;
    } else {
      assert (x + y)[..|x + y| - 1] == x + y[..|y| - 1];
      FeedAppend(t, c, x, y[..|y| - 1]);
    }
  }

  /** Chunks already cut are only carried along. */
  lemma {:induction false} EarlierChunksStay(t: Table, before: seq<seq<Byte>>, c: Chunking, s: seq<Byte>)
    ensures var r := FeedAll(t, c, s);
            FeedAll(t, c.(chunks := before + c.chunks), s) == r.(chunks := before + r.chunks)
  {
    hide CutAfter;
    if s != [] {
      EarlierChunksStay(t, before, c, s[..|s| - 1]);
      var r := FeedAll(t, c, s[..|s| - 1]);
      Assoc(before, r.chunks, [r.buffer + [s[|s| - 1]]]);
    }
  }

  lemma FeedConserves(t: Table, c: Chunking, b: Byte)
    ensures var r := Feed(t, c, b); Flatten(r.chunks) + r.buffer == Flatten(c.chunks) + c.buffer + [b]
  {
    hide CutAfter;
    FlattenAppend(c.chunks, [c.buffer + [b]]);
    FlattenOne(c.buffer + [b]);
    Assoc(Flatten(c.chunks), c.buffer, [b]);
    assert Flatten(c.chunks) + (c.buffer + [b]) + [] == Flatten(c.chunks) + (c.buffer + [b]);
  }

  /** Nothing is lost or invented. */
  lemma {:induction false} Conserves(t: Table, s: seq<Byte>)
    ensures var c := FeedAll(t, FRESH, s); Flatten(c.chunks) + c.buffer == s
  {
    hide Feed, Flatten;
    if s == [] {
      NothingFlattens();
    } else {
      var front, b := s[..|s| - 1], s[|s| - 1];
      Conserves(t, front);
      FeedConserves(t, FeedAll(t, FRESH, front), b);
      assert front + [b] == s;
    }
  }

  lemma NothingFlattens()
    ensures Flatten([]) == []
  {
  }

  lemma ChunksCoverPayload(t: Table, s: seq<Byte>)
    ensures Flatten(AllChunks(t, s)) == s
  {
    hide FeedAll;
    Conserves(t, s);
    var c := FeedAll(t, FRESH, s);
    if c.buffer != [] {
      FlattenAppend(c.chunks, [c.buffer]);
      FlattenOne(c.buffer);
    } else {
      assert c.chunks + [] == c.chunks && Flatten(c.chunks) + [] == Flatten(c.chunks);
    }
  }

  /** Every chunk but the last ends where the hash or the maximum says, within the size envelope; the rest is shorter than the maximum. */
  lemma {:induction false} Envelope(t: Table, s: seq<Byte>)
    ensures var c := FeedAll(t, FRESH, s);
            && |c.buffer| < MAX_BYTES && (|c.buffer| > 0 ==> !CutAfter(t, c.buffer))
            && forall i :: 0 <= i < |c.chunks| ==> MIN_BYTES <= |c.chunks[i]| <= MAX_BYTES && CutAfter(t, c.chunks[i])
  {
    hide FoldFrom;
    if s != [] {
      Envelope(t, s[..|s| - 1]);
    }
  }

  /** No proper prefix of a chunk could have been a chunk, and no prefix of what is buffered. */
  predicate Earliest(t: Table, c: Chunking) {
    && (forall n :: 0 < n <= |c.buffer| ==> !CutAfter(t, c.buffer[..n]))
    && forall i, n :: 0 <= i < |c.chunks| && 0 < n < |c.chunks[i]| ==> !CutAfter(t, c.chunks[i][..n])
  }

  lemma FeedsEarliest(t: Table, c: Chunking, b: Byte)
    requires Earliest(t, c)
    ensures Earliest(t, Feed(t, c, b))
  {
    hide CutAfter;
    var full := c.buffer + [b];
    forall n | 0 < n < |full| ensures !CutAfter(t, full[..n]) {
      assert full[..n] == c.buffer[..n];
    }
    assert full[..|full|] == full;
  }

  /** Each chunk ends at the first position where it may. */
  lemma {:induction false} CutsEarliest(t: Table, s: seq<Byte>)
    ensures Earliest(t, FeedAll(t, FRESH, s))
  {
    hide CutAfter, Feed;
    if s != [] {
      CutsEarliest(t, s[..|s| - 1]);
      FeedsEarliest(t, FeedAll(t, FRESH, s[..|s| - 1]), s[|s| - 1]);
    }
  }

  // Resynchronisation.

  /** The last bytes of the payload are the last bytes of the buffer, as far as it reaches. */
  lemma {:induction false} BufferIsSuffix(t: Table, s: seq<Byte>)
    ensures var c := FeedAll(t, FRESH, s); |c.buffer| <= |s| && c.buffer == s[|s| - |c.buffer|..]
  {
    Conserves(t, s);
    var c := FeedAll(t, FRESH, s);
    assert s == Flatten(c.chunks) + c.buffer;
  }

  /** Eighteen bytes that hash to a strict hit cut whatever is buffered before them, from the minimum size on. */
  lemma StrictHitCuts(t: Table, buffer: seq<Byte>, window: seq<Byte>)
    requires |window| == 18 && Cuts(Hash(t, window), GENERIC_STRICT)
    requires MIN_BYTES <= |buffer| && buffer[|buffer| - 18..] == window
    ensures CutAfter(t, buffer)
  {
    hide FoldFrom;
    var before := buffer[..|buffer| - 18];
    assert before + window == buffer && [] + window == window;
    StrictWindow(t, before, [], window);
    StrictImpliesRelaxed(Hash(t, buffer));
  }

  /** How many bytes a payload has had since its last cut, the next byte included. */
  function SinceCut(t: Table, s: seq<Byte>): nat
    requires s != []
  {
    |FeedAll(t, FRESH, s[..|s| - 1]).buffer| + 1
  }

  /** A payload ending in a strict hit, with at least the minimum since its last cut, is cut there. */
  lemma CutsAtHit(t: Table, s: seq<Byte>)
    requires 18 <= |s| && Cuts(Hash(t, s[|s| - 18..]), GENERIC_STRICT) && MIN_BYTES <= SinceCut(t, s)
    ensures FeedAll(t, FRESH, s).buffer == []
  {
    hide CutAfter, FoldFrom, Cuts;
    var front, b := s[..|s| - 1], s[|s| - 1];
    var c := FeedAll(t, FRESH, front);
    var full := c.buffer + [b];
    BufferIsSuffix(t, front);
    assert full[|full| - 18..] == s[|s| - 18..];
    StrictHitCuts(t, full, s[|s| - 18..]);
  }

  /**
   * Two payloads that share their bytes from some point on, and reach a strict hit inside what they share with at least
   * the minimum since their last cuts, are both cut there, and every later chunk is the same in both.
   */
  lemma Resynchronise(t: Table, x: seq<Byte>, y: seq<Byte>, shared: seq<Byte>, j: nat)
    requires 18 <= j <= |shared| && Cuts(Hash(t, shared[j - 18..j]), GENERIC_STRICT)
    requires MIN_BYTES <= SinceCut(t, x + shared[..j]) && MIN_BYTES <= SinceCut(t, y + shared[..j])
    ensures var before := FeedAll(t, FRESH, x + shared[..j]);
            var after := FeedAll(t, FRESH, y + shared[..j]);
            && before.buffer == after.buffer == []
            && AllChunks(t, x + shared) == before.chunks + AllChunks(t, shared[j..])
            && AllChunks(t, y + shared) == after.chunks + AllChunks(t, shared[j..])
  {
    hide CutAfter, FoldFrom, Cuts, FeedAll;
    CutThere(t, x, shared, j);
    CutThere(t, y, shared, j);
  }

  lemma CutThere(t: Table, x: seq<Byte>, shared: seq<Byte>, j: nat)
    requires 18 <= j <= |shared| && Cuts(Hash(t, shared[j - 18..j]), GENERIC_STRICT)
    requires MIN_BYTES <= SinceCut(t, x + shared[..j])
    ensures var c := FeedAll(t, FRESH, x + shared[..j]);
            c.buffer == [] && AllChunks(t, x + shared) == c.chunks + AllChunks(t, shared[j..])
  {
    hide CutAfter, FoldFrom, Cuts, FeedAll;
    var upTo, rest := x + shared[..j], shared[j..];
    assert upTo[|upTo| - 18..] == shared[j - 18..j];
    CutsAtHit(t, upTo);
    var c := FeedAll(t, FRESH, upTo);
    assert x + shared == upTo + rest;
    FeedAppend(t, FRESH, upTo, rest);
    assert c.chunks + FRESH.chunks == c.chunks;
    EarlierChunksStay(t, c.chunks, FRESH, rest);
    var r := FeedAll(t, FRESH, rest);
    Assoc(c.chunks, r.chunks, if r.buffer == [] then [] else [r.buffer]);
  }
}
