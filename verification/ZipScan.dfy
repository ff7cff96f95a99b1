/** Runs of the ZIP walker, and the data-descriptor scan as a search (section 4.3.9 of APPNOTE). */
module ZipScan {
  import opened Bytes
  import opened ZipRecords
  import opened ZipWalker

  datatype Ran = Ran(next: Walk, events: seq<Event>)

  /** The walk over a run of bytes, with everything it reports; `None` once it has faulted. */
  function Run(w: Walk, s: seq<Byte>): (r: Option<Ran>)
    requires ValidState(w.state)
    ensures r.Some? ==> ValidState(r.value.next.state)
  {
    if s == [] then Some(Ran(w, []))
    else
      match Run(w, s[..|s| - 1])
      case None => None
      case Some(r) =>
        match Consume(r.next, s[|s| - 1])
        case Stop(_) => None
        case Go(next, events, _) => Some(Ran(next, r.events + events))
  }

  lemma {:induction false} RunAppend(w: Walk, x: seq<Byte>, y: seq<Byte>)
    requires ValidState(w.state)
    ensures Run(w, x + y) ==
            match Run(w, x)
            case None => None
            case Some(r) =>
              match Run(r.next, y)
              case None => None
              case Some(q) => Some(Ran(q.next, r.events + q.events))
  {
    hide Consume;
    if y == [] {
      assert x + y == x;
      if Run(w, x).Some? {
        assert Run(w, x).value.events + [] == Run(w, x).value.events;
      }
    } else {
      var front := y[..|y| - 1];
      assert (x + y)[..|x + y| - 1] == x + front;
      RunAppend(w, x, front);
      if Run(w, x + y).Some? {
        var r := Run(w, x).value;
        var q := Run(r.next, front).value;
        var last := Consume(q.next, y[|y| - 1]);
        assert r.events + q.events + last.events == r.events + (q.events + last.events);
      }
    }
  }

  lemma RunStep(w: Walk, s: seq<Byte>, k: nat)
    requires ValidState(w.state) && k < |s|
    ensures Run(w, s[..k + 1]) ==
            match Run(w, s[..k])
            case None => None
            case Some(r) =>
              match Consume(r.next, s[k])
              case Stop(_) => None
              case Go(next, events, _) => Some(Ran(next, r.events + events))
  {
    hide Consume;
    assert s[..k + 1][..k] == s[..k];
  }

  lemma RunNothing(w: Walk)
    requires ValidState(w.state)
    ensures Run(w, []) == Some(Ran(w, []))
  {
  }

  /** A step after bytes that reported nothing. */
  lemma RunStepQuiet(w: Walk, s: seq<Byte>, k: nat, x: Walk)
    requires ValidState(w.state) && k < |s| && Run(w, s[..k]) == Some(Ran(x, []))
    ensures Run(w, s[..k + 1]) ==
            match Consume(x, s[k])
            case Stop(_) => None
            case Go(next, events, _) => Some(Ran(next, events))
  {
    hide Consume;
    RunStep(w, s, k);
    if Consume(x, s[k]).Go? {
      assert [] + Consume(x, s[k]).events == Consume(x, s[k]).events;
    }
  }

  /** The member-data events of a run of bytes. */
  function DataEvents(s: seq<Byte>): seq<Event> {
    seq(|s|, i requires 0 <= i < |s| => MemberData(s[i]))
  }

  lemma DataNothing()
    ensures DataEvents([]) == []
  {
  }

  lemma DataAppend(t: seq<Byte>, a: nat, b: nat)
    requires a <= b <= |t|
    ensures DataEvents(t[..a]) + DataEvents(t[a..b]) == DataEvents(t[..b])
  {
  }

  // The scan of a member of unknown size.

  function DescriptorLen(zip64: bool): nat {
    4 + BodyLen(zip64)
  }

  /** A self-consistent descriptor at `p`: signed, and claiming exactly the `p` bytes before it. */
  predicate DescriptorAt(zip64: bool, t: seq<Byte>, p: nat) {
    && p + DescriptorLen(zip64) <= |t|
    && t[p..p + 4] == DATA_DESCRIPTOR
    && BodySizes(zip64, t[p + 4..p + DescriptorLen(zip64)]).compressed == p
  }

  /** No such descriptor is complete within the first `n` bytes. */
  predicate NoneWithin(zip64: bool, t: seq<Byte>, n: nat) {
    forall q :: 0 <= q && q + DescriptorLen(zip64) <= n ==> !DescriptorAt(zip64, t, q)
  }

  /** `c` is the first position from which the bytes up to `n` may still become a descriptor. */
  predicate HoldsFrom(zip64: bool, t: seq<Byte>, c: nat, n: nat)
    requires c <= n <= |t|
  {
    Waits(zip64, t[c..n]) && forall q :: 0 <= q < c ==> !Waits(zip64, t[q..n])
  }

  /** The bytes the scan gives up are those before the first position that may still be a descriptor. */
  lemma {:induction false} ScanGivesUp(w: Walk, codec: nat, zip64: bool, t: seq<Byte>, c0: nat, n: nat) returns (c: nat)
    requires c0 <= n <= |t| && n - c0 <= DescriptorLen(zip64)
    requires NoneWithin(zip64, t, n)
    requires forall q :: 0 <= q < c0 ==> !Waits(zip64, t[q..n])
    ensures c0 <= c <= n && HoldsFrom(zip64, t, c, n)
    ensures ScanPending(w, c0, codec, zip64, t[c0..n]) ==
            Go(w.(state := DataScan(c, codec, zip64, t[c..n])), DataEvents(t[c0..c]), None)
    decreases n - c0
  {
    hide Looks, BodySizes;
    var pending := t[c0..n];
    if Waits(zip64, pending) {
      c := c0;
      assert !Closes(zip64, c0, pending);
      assert t[c0..c0] == [] && DataEvents(t[c0..c]) == [];
    } else {
      NotClosed(zip64, t, c0, n);
      assert pending != [] by { EmptyWaits(zip64); }
      assert pending[1..] == t[c0 + 1..n];
      c := ScanGivesUp(w, codec, zip64, t, c0 + 1, n);
      assert DataEvents(t[c0..c]) == [MemberData(pending[0])] + DataEvents(t[c0 + 1..c]);
    }
  }

  lemma EmptyWaits(zip64: bool)
    ensures Waits(zip64, [])
  {
  }

  /** Bytes that are not a descriptor do not close the member. */
  lemma NotClosed(zip64: bool, t: seq<Byte>, c: nat, n: nat)
    requires c <= n <= |t| && n - c <= DescriptorLen(zip64) && NoneWithin(zip64, t, n)
    ensures !Closes(zip64, c, t[c..n])
  {
    if n - c == DescriptorLen(zip64) {
      assert !DescriptorAt(zip64, t, c);
      assert t[c..n][..4] == t[c..c + 4] && t[c..n][4..4 + BodyLen(zip64)] == t[c + 4..n];
    }
  }

  /** A longer run of bytes waits no better than a shorter one. */
  lemma WaitsShrinks(zip64: bool, t: seq<Byte>, q: nat, n: nat)
    requires q <= n < |t| && Waits(zip64, t[q..n + 1])
    ensures Waits(zip64, t[q..n])
  {
    if 4 <= n - q {
      assert t[q..n + 1][..4] == t[q..n][..4];
    }
  }

  /** One byte of a member of unknown size, mid-scan. */
  lemma ScanByte(w: Walk, codec: nat, zip64: bool, t: seq<Byte>, c: nat, n: nat)
    requires c <= n < |t| && w.state == DataScan(c, codec, zip64, t[c..n])
    ensures var step := ScanPending(w.(state := Signature([])), c, codec, zip64, t[c..n + 1]);
            Consume(w, t[n]) == if step.Go? then Go(step.next.(offset := w.offset + 1), step.events, step.large) else step
  {
    hide ScanPending;
    assert t[c..n] + [t[n]] == t[c..n + 1];
  }

  /**
   * Until a self-consistent descriptor is complete, the walker has reported as member data exactly the bytes
   * before the first position that may still begin one, and holds the rest: less than one descriptor.
   */
  lemma {:induction false} ScanHolds(w: Walk, codec: nat, zip64: bool, t: seq<Byte>, n: nat) returns (c: nat)
    requires w.state == DataScan(0, codec, zip64, []) && n <= |t| && NoneWithin(zip64, t, n)
    ensures c <= n < c + DescriptorLen(zip64) && HoldsFrom(zip64, t, c, n)
    ensures Run(w, t[..n]) ==
            Some(Ran(w.(state := DataScan(c, codec, zip64, t[c..n]), offset := w.offset + n), DataEvents(t[..c])))
  {
    hide ScanPending, Waits, Consume, DataEvents;
    if n == 0 {
      c := 0;
      EmptyWaits(zip64);
      assert t[..0] == [] == t[0..0];
      DataNothing();
    } else {
      var c0 := ScanHolds(w, codec, zip64, t, n - 1);
      RunStep(w, t, n - 1);
      forall q | 0 <= q < c0 ensures !Waits(zip64, t[q..n]) {
        if Waits(zip64, t[q..n]) {
          WaitsShrinks(zip64, t, q, n - 1);
        }
      }
      var mid := Run(w, t[..n - 1]).value.next;
      ScanByte(mid, codec, zip64, t, c0, n - 1);
      c := ScanGivesUp(mid.(state := Signature([])), codec, zip64, t, c0, n);
      DataAppend(t, c0, c);
      WaitsShort(zip64, t[c..n]);
    }
  }

  lemma WaitsShort(zip64: bool, pending: seq<Byte>)
    requires Waits(zip64, pending)
    ensures |pending| < DescriptorLen(zip64)
  {
  }

  /**
   * The scan ends the member at the least position where a descriptor claims exactly the bytes before it;
   * those bytes, and no others, are the member's data.
   */
  lemma ScanEndsAtLeast(w: Walk, codec: nat, zip64: bool, t: seq<Byte>, p: nat)
    requires w.state == DataScan(0, codec, zip64, [])
    requires DescriptorAt(zip64, t, p) && forall q :: 0 <= q < p ==> !DescriptorAt(zip64, t, q)
    ensures var n := p + DescriptorLen(zip64);
            var body := t[p + 4..n];
            var sizes := BodySizes(zip64, body);
            Run(w, t[..n]) ==
            if Check(sizes, codec).Some? then None
            else Some(Ran(w.(state := Signature([]), offset := w.offset + n),
                          DataEvents(t[..p]) + [MemberEnd(sizes, BodyCrc(body))]))
  {
    hide ScanPending, BodySizes, Check, BodyCrc, Consume;
    var n := p + DescriptorLen(zip64);
    var c := ScanHolds(w, codec, zip64, t, n - 1);
    assert Waits(zip64, t[p..n - 1]) by {
      assert t[p..n - 1][..4] == t[p..p + 4];
    }
    assert c == p;
    RunStep(w, t, n - 1);
    var mid := Run(w, t[..n - 1]).value.next;
    ScanByte(mid, codec, zip64, t, p, n - 1);
    assert t[p..n][4..] == t[p + 4..n] && t[p..n][..4] == t[p..p + 4];
    ScanUnrolled(mid.(state := Signature([])), p, codec, zip64, t[p..n]);
  }
}
