/** The end of an archive, read from its bytes: the central directory, the ZIP64 records, the end record (sections 4.3.12 to 4.3.16 of APPNOTE). */
module ZipDirectory {
  import opened Bytes
  import opened ZipRecords
  import opened ZipWalker
  import opened ZipScan
  import opened ZipWriter
  import opened ZipEvents
  import opened ZipRoundTrip

  // What a directory and its end are.

  predicate Begins(t: seq<Byte>, sig: seq<Byte>) {
    sig <= t
  }

  /** The length of the entry in front: 46 bytes, then name, extra part and comment. */
  function EntryLen(t: seq<Byte>): nat
    requires 46 <= |t|
  {
    46 + U16(t, 28) + U16(t, 30) + U16(t, 32)
  }

  /** A whole entry in front, of plausible sizes, for a member before the directory. */
  predicate EntryFits(t: seq<Byte>, start: nat) {
    && 46 <= |t| && Begins(t, CENTRAL_HEADER) && EntryLen(t) <= |t|
    && var facts := CentralFacts(ParseCentral(t[4..46]), t[46 + U16(t, 28)..46 + U16(t, 28) + U16(t, 30)]);
       facts.Ok? && Check(facts.value.sizes, U16(t, 10)).None? && facts.value.offset < start
  }

  /** The ZIP64 end record in front, with its locator. */
  function Zip64Len(t: seq<Byte>): nat
    requires 12 <= |t|
  {
    12 + U64(t, 4)
  }

  predicate Zip64Fits(t: seq<Byte>) {
    && 56 <= |t| && Begins(t, ZIP64_END_OF_CENTRAL_DIRECTORY) && 44 <= U64(t, 4) && Zip64Len(t) + 20 <= |t|
    && Begins(t[Zip64Len(t)..], ZIP64_LOCATOR)
  }

  /** The end record, which says how many entries there are, how long they are and where they begin, or lets the ZIP64 record say so. */
  predicate EndReads(t: seq<Byte>, zip64: seq<Byte>, count: nat, start: nat, size: int, members: nat)
    requires zip64 == [] || 56 <= |zip64|
  {
    && 22 <= |t| && Begins(t, END_OF_CENTRAL_DIRECTORY) && |t| == 22 + U16(t, 20)
    && (if zip64 != [] && U16(t, 10) == MAX16 then U64(zip64, 32) else U16(t, 10)) == count == members
    && (if zip64 != [] && U32(t, 12) == MAX32 then U64(zip64, 40) else U32(t, 12)) == size
    && (if zip64 != [] && U32(t, 16) == MAX32 then U64(zip64, 48) else U32(t, 16)) == start
  }

  /** After `count` entries: ZIP64 records perhaps, and the end record. */
  predicate CloseReads(t: seq<Byte>, count: nat, start: nat, size: int, members: nat) {
    if Begins(t, ZIP64_END_OF_CENTRAL_DIRECTORY) then
      Zip64Fits(t) && EndReads(t[Zip64Len(t) + 20..], t, count, start, size, members)
    else EndReads(t, [], count, start, size, members)
  }

  /** A directory that begins at `start`, `count` of its entries being before byte `at`: more entries, and then its end. */
  predicate TailReads(t: seq<Byte>, count: nat, start: nat, at: nat, members: nat)
    decreases |t|
  {
    if Begins(t, CENTRAL_HEADER) then
      EntryFits(t, start) && TailReads(t[EntryLen(t)..], count + 1, start, at + EntryLen(t), members)
    else CloseReads(t, count, start, at - start, members)
  }

  // What the walker makes of it.

  predicate Finishes(w: Walk, t: seq<Byte>)
    requires ValidState(w.state)
  {
    Run(w, t).Some? && MayFinish(Run(w, t).value.next)
  }

  lemma FinishesThen(w: Walk, x: seq<Byte>, y: seq<Byte>, mid: Walk, events: seq<Event>)
    requires ValidState(w.state) && ValidState(mid.state) && Run(w, x) == Some(Ran(mid, events))
    ensures Finishes(w, x + y) <==> Finishes(mid, y)
  {
    hide Run, MayFinish;
    RunThen(w, x, y);
  }

  lemma FaultsThen(w: Walk, x: seq<Byte>, y: seq<Byte>)
    requires ValidState(w.state) && Run(w, x).None?
    ensures !Finishes(w, x + y)
  {
    hide Run, MayFinish;
    RunThen(w, x, y);
  }

  /** Inside a signature nothing can end. */
  lemma InSignature(w: Walk, t: seq<Byte>)
    requires w.state == Signature([]) && w.phase != Complete && |t| < 4
    ensures !Finishes(w, t)
  {
    hide Run, Consume;
    RunNothing(w);
    if t == [] {
    } else {
      assert t[..0] == [] && t[..1] == [t[0]];
      Collects(w, t, |t|);
      assert t[..|t|] == t;
    }
  }

  lemma {:induction false} Collects(w: Walk, t: seq<Byte>, k: nat)
    requires w.state == Signature([]) && w.phase != Complete && k <= |t| < 4
    ensures Run(w, t[..k]) == Some(Ran(w.(state := Signature(t[..k]), offset := w.offset + k), []))
  {
    hide Run, Consume;
    if k == 0 {
      assert t[..0] == [];
      RunNothing(w);
    } else {
      Collects(w, t, k - 1);
      var x := w.(state := Signature(t[..k - 1]), offset := w.offset + k - 1);
      assert t[..k - 1] + [t[k - 1]] == t[..k];
      RunStepQuiet(w, t, k - 1, x);
      ConsumeSignature(x, t[k - 1]);
    }
  }

  /** Nor inside a record. */
  lemma InFixed(w: Walk, kind: Record, t: seq<Byte>)
    requires w.state == Fixed(kind, []) && |t| < FixedLen(kind)
    ensures !Finishes(w, t)
  {
    hide Run, FixedLen;
    FixedCollects(w, kind, t, |t|);
    assert t[..|t|] == t;
  }

  lemma InVariable(w: Walk, part: Variable, t: seq<Byte>)
    requires w.state == VariablePart(part, VariableLen(part), []) && |t| < VariableLen(part)
    ensures !Finishes(w, t)
  {
    hide Run, VariableLen;
    VariableCollects(w, part, t, |t|);
    assert t[..|t|] == t;
  }

  /** A part that is skipped. */
  lemma {:induction false} Skips(w: Walk, t: seq<Byte>, k: nat)
    requires w.state.Skip? && k <= |t| && k <= w.state.left
    ensures Run(w, t[..k]) ==
            Some(Ran(if k == w.state.left then w.(state := Signature([]), phase := w.state.andThen, offset := w.offset + k)
                     else w.(state := Skip(w.state.left - k, w.state.andThen), offset := w.offset + k), []))
  {
    hide Run, Consume;
    if k == 0 {
      assert t[..0] == [];
      RunNothing(w);
    } else {
      Skips(w, t, k - 1);
      var x := w.(state := Skip(w.state.left - (k - 1), w.state.andThen), offset := w.offset + k - 1);
      RunStepQuiet(w, t, k - 1, x);
      SkipStep(x, t[k - 1]);
    }
  }

  lemma SkipStep(w: Walk, b: Byte)
    requires w.state.Skip?
    ensures Consume(w, b) ==
            Go(if w.state.left == 1 then w.(state := Signature([]), phase := w.state.andThen, offset := w.offset + 1)
               else w.(state := Skip(w.state.left - 1, w.state.andThen), offset := w.offset + 1), [], None)
  {
  }

  /** A skipped part of `n` bytes, perhaps none, and what follows. */
  lemma SkipThen(w: Walk, n: nat, phase: Phase, t: seq<Byte>)
    requires n == 0 ==> w.state == Signature([]) && w.phase == phase
    requires n > 0 ==> w.state == Skip(n, phase)
    ensures Finishes(w, t) <==> n <= |t| && Finishes(w.(state := Signature([]), phase := phase, offset := w.offset + n), t[n..])
  {
    hide Run, MayFinish;
    if n == 0 {
      assert t[0..] == t;
    } else if n <= |t| {
      Skips(w, t, n);
      assert t[..n] + t[n..] == t;
      FinishesThen(w, t[..n], t[n..], w.(state := Signature([]), phase := phase, offset := w.offset + n), []);
    } else {
      Skips(w, t, |t|);
      assert t[..|t|] == t;
      NotDone(w.(state := Skip(n - |t|, phase), offset := w.offset + |t|));
    }
  }

  lemma NotDone(w: Walk)
    requires w.state != Signature([]) || w.phase != Complete
    ensures !MayFinish(w)
  {
  }

  /** After the end record, nothing. */
  lemma AfterEnd(w: Walk, t: seq<Byte>)
    requires w.state == Signature([]) && w.phase == Complete
    ensures Finishes(w, t) <==> t == []
  {
    hide Run;
    RunNothing(w);
    if t != [] {
      assert t[..0] == [] && t[..1] == [t[0]] && t == [t[0]] + t[1..];
      RunStepQuiet(w, t, 0, w);
      FaultsThen(w, [t[0]], t[1..]);
    }
  }

  /** A record's signature and what follows it. */
  lemma Signed(w: Walk, t: seq<Byte>)
    requires w.state == Signature([]) && w.phase != Complete && 4 <= |t|
    ensures match DispatchSignature(w.(offset := w.offset + 3), t[..4])
            case Stop(_) => !Finishes(w, t)
            case Go(next, _, _) => ValidState(next.state) && (Finishes(w, t) <==> Finishes(next.(offset := w.offset + 4), t[4..]))
  {
    hide Run, MayFinish;
    SignatureRun(w, t[..4]);
    assert t[..4] + t[4..] == t;
    var step := DispatchSignature(w.(offset := w.offset + 3), t[..4]);
    if step.Go? {
      FinishesThen(w, t[..4], t[4..], step.next.(offset := w.offset + 4), step.events);
    } else {
      FaultsThen(w, t[..4], t[4..]);
    }
  }

  /** The fixed part of a record and what follows it. */
  lemma FixedThen(w: Walk, kind: Record, t: seq<Byte>)
    requires w.state == Fixed(kind, [])
    ensures if |t| < FixedLen(kind) then !Finishes(w, t)
            else
              match DispatchFixed(w.(state := Signature([]), offset := w.offset + FixedLen(kind) - 1), kind, t[..FixedLen(kind)])
              case Stop(_) => !Finishes(w, t)
              case Go(next, _, _) =>
                ValidState(next.state) ==> (Finishes(w, t) <==> Finishes(next.(offset := w.offset + FixedLen(kind)), t[FixedLen(kind)..]))
  {
    hide Run, MayFinish, DispatchFixed, FixedLen;
    var n := FixedLen(kind);
    if |t| < n {
      InFixed(w, kind, t);
    } else {
      FixedRun(w, kind, t[..n]);
      assert t[..n] + t[n..] == t;
      var step := DispatchFixed(w.(state := Signature([]), offset := w.offset + n - 1), kind, t[..n]);
      if step.Go? && ValidState(step.next.state) {
        FinishesThen(w, t[..n], t[n..], step.next.(offset := w.offset + n), step.events);
      } else if step.Stop? {
        FaultsThen(w, t[..n], t[n..]);
      }
    }
  }

  // Entries.

  /** Fields keep their place in a slice. */
  lemma FieldAt(t: seq<Byte>, from: nat, to: nat, at: nat, n: nat)
    requires from + at + n <= to <= |t|
    ensures UnLe(t[from..to][at..at + n]) == UnLe(t[from + at..from + at + n])
  {
    SliceAt(t, from, to, at, n);
  }

  lemma SliceAt(t: seq<Byte>, from: nat, to: nat, at: nat, n: nat)
    requires from + at + n <= to <= |t|
    ensures t[from..to][at..at + n] == t[from + at..from + at + n]
  {
    var x, y := t[from..to][at..at + n], t[from + at..from + at + n];
    assert |x| == |y| == n;
    assert forall i :: 0 <= i < n ==> x[i] == t[from..to][at + i] == t[from + at + i] == y[i];
    assert x == y;
  }

  /** The lengths in an entry's fixed part, and where its extra part is. */
  lemma EntryParts(t: seq<Byte>)
    requires 46 <= |t|
    ensures var h := ParseCentral(t[4..46]);
            && h.nameLen == U16(t, 28) && h.extraLen == U16(t, 30) && h.commentLen == U16(t, 32) && h.codec == U16(t, 10)
            && VariableLen(CentralPart(h)) == EntryLen(t) - 46
            && (EntryLen(t) <= |t| ==>
                  t[46..EntryLen(t)][h.nameLen..h.nameLen + h.extraLen] == t[46 + U16(t, 28)..46 + U16(t, 28) + U16(t, 30)])
  {
    hide UnLe;
    FieldAt(t, 4, 46, 24, 2);
    FieldAt(t, 4, 46, 26, 2);
    FieldAt(t, 4, 46, 28, 2);
    FieldAt(t, 4, 46, 6, 2);
    if EntryLen(t) <= |t| {
      SliceAt(t, 46, EntryLen(t), U16(t, 28), U16(t, 30));
    }
  }

  /** What a central entry's variable part leads to. */
  lemma CentralPasses(w: Walk, h: CentralHeader, v: seq<Byte>, start: nat)
    requires |v| == VariableLen(CentralPart(h)) && w.centralStart == Some(start)
    ensures var facts := CentralFacts(h, v[h.nameLen..h.nameLen + h.extraLen]);
            var step := DispatchVariable(w, CentralPart(h), v);
            if facts.Ok? && Check(facts.value.sizes, h.codec).None? && facts.value.offset < start
            then step == Go(w.(state := Signature([])), [], None) else step.Stop?
  {
    hide CentralFacts, Check;
  }

  /** An entry whose fixed part is in: its variable part, and what follows it. */
  lemma EntryRest(w: Walk, h: CentralHeader, t: seq<Byte>, start: nat)
    requires w.state == Signature([]) && w.centralStart == Some(start)
    ensures var n := VariableLen(CentralPart(h));
            var v := t[..if n <= |t| then n else |t|];
            var begun := w.(state := VariablePart(CentralPart(h), n, []));
            n > 0 ==> (Finishes(begun, t) <==>
                       n <= |t| && DispatchVariable(w, CentralPart(h), v).Go? && Finishes(w.(offset := w.offset + n), t[n..]))
  {
    hide Run, MayFinish, CentralFacts, Check;
    var n := VariableLen(CentralPart(h));
    var begun := w.(state := VariablePart(CentralPart(h), n, []));
    if n > 0 {
      if |t| < n {
        InVariable(begun, CentralPart(h), t);
      } else {
        VariableRun(begun, CentralPart(h), t[..n]);
        assert t[..n] + t[n..] == t;
        if DispatchVariable(w, CentralPart(h), t[..n]).Go? {
          FinishesThen(begun, t[..n], t[n..], w.(offset := w.offset + n), []);
        } else {
          FaultsThen(begun, t[..n], t[n..]);
        }
      }
    }
  }

  /** The entry in front is read whole, or the walk does not finish. */
  lemma EntryStep(w: Walk, t: seq<Byte>, start: nat)
    requires w.state == Fixed(RCentral, []) && w.centralStart == Some(start) && 4 <= |t| && Begins(t, CENTRAL_HEADER)
    ensures Finishes(w, t[4..]) <==>
            EntryFits(t, start)
            && Finishes(w.(state := Signature([]), centralCount := w.centralCount + 1, offset := w.offset + EntryLen(t) - 4), t[EntryLen(t)..])
  {
    hide Run, MayFinish, CentralFacts, Check, ParseCentral, UnLe, DispatchVariable;
    FixedThen(w, RCentral, t[4..]);
    if 46 <= |t| {
      assert t[4..][..42] == t[4..46] && t[4..][42..] == t[46..];
      EntryParts(t);
      var h := ParseCentral(t[4..46]);
      var counted := w.(state := Signature([]), centralCount := w.centralCount + 1);
      EntryRest(counted.(offset := w.offset + 42), h, t[46..], start);
      var n := EntryLen(t) - 46;
      if EntryLen(t) <= |t| {
        assert t[46..][..n] == t[46..EntryLen(t)] && t[46..][n..] == t[EntryLen(t)..];
        CentralPasses(counted.(offset := w.offset + 42), h, t[46..EntryLen(t)], start);
        CentralPasses(counted.(offset := w.offset + 41), h, t[46..EntryLen(t)], start);
      }
    }
  }

  // The end records.

  lemma EndParts(t: seq<Byte>)
    requires 22 <= |t|
    ensures ParseEnd(t[4..22]) == EndRecord(U16(t, 10), U32(t, 12), U32(t, 16), U16(t, 20))
  {
    hide UnLe;
    FieldAt(t, 4, 22, 6, 2);
    FieldAt(t, 4, 22, 8, 4);
    FieldAt(t, 4, 22, 12, 4);
    FieldAt(t, 4, 22, 16, 2);
  }

  lemma Zip64Parts(t: seq<Byte>)
    requires 56 <= |t|
    ensures ParseZip64End(t[4..56]) ==
            if U64(t, 4) < 44 then Err(CentralDirectoryGeometry) else Ok(Zip64EndRecord(U64(t, 32), U64(t, 40), U64(t, 48), U64(t, 4) - 44))
  {
    hide UnLe;
    FieldAt(t, 4, 56, 0, 8);
    FieldAt(t, 4, 56, 28, 8);
    FieldAt(t, 4, 56, 36, 8);
    FieldAt(t, 4, 56, 44, 8);
  }

  /** What the walker remembers of a ZIP64 end record. */
  predicate Remembers(w: Walk, zip64: seq<Byte>) {
    if zip64 == [] then w.zip64End.None?
    else
      && 56 <= |zip64| && w.zip64End.Some?
      && w.zip64End.value.entriesTotal == U64(zip64, 32) && w.zip64End.value.centralSize == U64(zip64, 40)
      && w.zip64End.value.centralOffset == U64(zip64, 48)
  }

  /** The end record closes the archive exactly when what it says is what there was. */
  lemma EndStep(w: Walk, t: seq<Byte>, zip64: seq<Byte>, start: nat)
    requires w.state == Fixed(REnd, []) && w.centralStart == Some(start) && start <= w.centralEnd && Remembers(w, zip64)
    requires 4 <= |t| && Begins(t, END_OF_CENTRAL_DIRECTORY)
    ensures Finishes(w, t[4..]) <==> EndReads(t, zip64, w.centralCount, start, w.centralEnd - start, w.localCount)
  {
    hide Run, MayFinish, ParseEnd, UnLe;
    FixedThen(w, REnd, t[4..]);
    if 22 <= |t| {
      assert t[4..][..18] == t[4..22] && t[4..][18..] == t[22..];
      EndParts(t);
      var n := U16(t, 20);
      var next := SkipTo(w.(state := Signature([]), offset := w.offset + 18), n, Complete);
      SkipThen(next, n, Complete, t[22..]);
      if n <= |t[22..]| {
        AfterEnd(next.(state := Signature([]), phase := Complete, offset := next.offset + n), t[22..][n..]);
      }
    }
  }

  /** The ZIP64 record and its locator come before the end record. */
  lemma Zip64Step(w: Walk, t: seq<Byte>, start: nat)
    requires w.state == Fixed(RZip64End, []) && w.phase == Zip64EndSeen && w.centralStart == Some(start) && start <= w.centralEnd
    requires 4 <= |t| && Begins(t, ZIP64_END_OF_CENTRAL_DIRECTORY)
    ensures Finishes(w, t[4..]) <==>
            Zip64Fits(t) && EndReads(t[Zip64Len(t) + 20..], t, w.centralCount, start, w.centralEnd - start, w.localCount)
  {
    hide Run, MayFinish, ParseZip64End, UnLe, EndReads;
    FixedThen(w, RZip64End, t[4..]);
    if 56 <= |t| {
      assert t[4..][..52] == t[4..56] && t[4..][52..] == t[56..];
      Zip64Parts(t);
      if 44 <= U64(t, 4) {
        var n := U64(t, 4) - 44;
        var seen := w.(state := Signature([]), zip64End := Some(Zip64EndRecord(U64(t, 32), U64(t, 40), U64(t, 48), n)), offset := w.offset + 52);
        var next := SkipTo(seen, n, Zip64EndSeen);
        SkipThen(next, n, Zip64EndSeen, t[56..]);
        if n <= |t[56..]| {
          assert t[56..][n..] == t[Zip64Len(t)..];
          LocatorStep(seen.(offset := next.offset + n), t[Zip64Len(t)..], t, start);
          if Zip64Len(t) + 20 <= |t| {
            assert t[Zip64Len(t)..][20..] == t[Zip64Len(t) + 20..];
          }
        }
      }
    }
  }

  lemma LocatorStep(w: Walk, t: seq<Byte>, zip64: seq<Byte>, start: nat)
    requires w.state == Signature([]) && w.phase == Zip64EndSeen && w.centralStart == Some(start) && start <= w.centralEnd
    requires zip64 != [] && Remembers(w, zip64)
    ensures Finishes(w, t) <==>
            20 <= |t| && Begins(t, ZIP64_LOCATOR) && EndReads(t[20..], zip64, w.centralCount, start, w.centralEnd - start, w.localCount)
  {
    hide Run, MayFinish, EndReads;
    if |t| < 4 {
      InSignature(w, t);
    } else {
      Signed(w, t);
      if t[..4] == ZIP64_LOCATOR {
        var w1 := w.(state := Fixed(RZip64Locator, []), phase := LocatorSeen, offset := w.offset + 4);
        FixedThen(w1, RZip64Locator, t[4..]);
        if 20 <= |t| {
          assert t[4..][16..] == t[20..];
          LastStep(w1.(state := Signature([]), offset := w.offset + 20), t[20..], zip64, start);
        }
      }
    }
  }

  /** After the locator only the end record may come. */
  lemma LastStep(w: Walk, t: seq<Byte>, zip64: seq<Byte>, start: nat)
    requires w.state == Signature([]) && w.phase == LocatorSeen && w.centralStart == Some(start) && start <= w.centralEnd
    requires zip64 != [] && Remembers(w, zip64)
    ensures Finishes(w, t) <==> EndReads(t, zip64, w.centralCount, start, w.centralEnd - start, w.localCount)
  {
    hide Run, MayFinish;
    if |t| < 4 {
      InSignature(w, t);
    } else {
      Signed(w, t);
      if t[..4] == END_OF_CENTRAL_DIRECTORY {
        EndStep(w.(state := Fixed(REnd, []), offset := w.offset + 4), t, zip64, start);
      }
    }
  }

  // The whole tail.

  /** Inside a directory that began at `start`, the walk finishes exactly when the rest reads as one. */
  lemma {:induction false} TailMeets(w: Walk, t: seq<Byte>, start: nat)
    requires w.state == Signature([]) && w.phase == Central && w.centralStart == Some(start) && start <= w.offset && w.zip64End.None?
    ensures Finishes(w, t) <==> TailReads(t, w.centralCount, start, w.offset, w.localCount)
    decreases |t|
  {
    hide Run, MayFinish, EndReads, EntryFits, Zip64Fits, EntryLen;
    if |t| < 4 {
      InSignature(w, t);
      TooShort(t, w.centralCount, start, w.offset, w.localCount);
    } else {
      Signed(w, t);
      var sig := t[..4];
      if sig == CENTRAL_HEADER {
        EntryStep(w.(state := Fixed(RCentral, []), offset := w.offset + 4), t, start);
        if EntryFits(t, start) {
          Shorter(t, start);
          TailMeets(w.(centralCount := w.centralCount + 1, offset := w.offset + EntryLen(t)), t[EntryLen(t)..], start);
        }
      } else if sig == ZIP64_END_OF_CENTRAL_DIRECTORY {
        Zip64Step(w.(state := Fixed(RZip64End, []), phase := Zip64EndSeen, centralEnd := w.offset, offset := w.offset + 4), t, start);
      } else if sig == END_OF_CENTRAL_DIRECTORY {
        EndStep(w.(state := Fixed(REnd, []), centralEnd := w.offset, offset := w.offset + 4), t, [], start);
      } else {
        NoneBegins(t, w.centralCount, start, w.offset, w.localCount);
      }
    }
  }

  lemma Shorter(t: seq<Byte>, start: nat)
    requires EntryFits(t, start)
    ensures 46 <= |t| && EntryLen(t) <= |t| && 0 < EntryLen(t)
  {
    hide CentralFacts, Check, UnLe;
  }

  lemma TooShort(t: seq<Byte>, count: nat, start: nat, at: nat, members: nat)
    requires |t| < 4
    ensures !TailReads(t, count, start, at, members)
  {
  }

  lemma NoneBegins(t: seq<Byte>, count: nat, start: nat, at: nat, members: nat)
    requires 4 <= |t| && t[..4] != CENTRAL_HEADER && t[..4] != ZIP64_END_OF_CENTRAL_DIRECTORY && t[..4] != END_OF_CENTRAL_DIRECTORY
    ensures !TailReads(t, count, start, at, members)
  {
  }

  /** At a member boundary, what is no local header begins the directory, or ends the archive. */
  lemma TailBegins(w: Walk, t: seq<Byte>)
    requires w.state == Signature([]) && w.phase == Members && w.centralStart.None? && w.centralCount == 0 && w.zip64End.None?
    requires !Begins(t, LOCAL_HEADER)
    ensures Finishes(w, t) <==> TailReads(t, 0, w.offset, w.offset, w.localCount)
  {
    hide Run, MayFinish, EndReads, EntryFits, Zip64Fits, EntryLen;
    var start := w.offset;
    if |t| < 4 {
      InSignature(w, t);
      TooShort(t, 0, start, w.offset, w.localCount);
    } else {
      Signed(w, t);
      var sig := t[..4];
      var begun := w.(centralStart := Some(start), offset := w.offset + 4);
      if sig == CENTRAL_HEADER {
        EntryStep(begun.(state := Fixed(RCentral, []), phase := Central), t, start);
        if EntryFits(t, start) {
          Shorter(t, start);
          TailMeets(w.(phase := Central, centralStart := Some(start), centralCount := 1, offset := w.offset + EntryLen(t)), t[EntryLen(t)..], start);
        }
      } else if sig == ZIP64_END_OF_CENTRAL_DIRECTORY {
        Zip64Step(begun.(state := Fixed(RZip64End, []), phase := Zip64EndSeen, centralEnd := start), t, start);
      } else if sig == END_OF_CENTRAL_DIRECTORY {
        EndStep(begun.(state := Fixed(REnd, []), centralEnd := start), t, [], start);
      } else {
        NoneBegins(t, 0, start, w.offset, w.localCount);
        assert sig != LOCAL_HEADER;
      }
    }
  }

  // Where the directory begins in a whole stream.

  lemma {:induction false} OffsetCounts(s: seq<Byte>)
    requires Run(START, s).Some?
    ensures Run(START, s).value.next.offset == |s|
  {
    hide StepAt;
    if s != [] {
      OffsetCounts(s[..|s| - 1]);
    }
  }

  /** A signature under way was collected byte by byte. */
  lemma StepToSignature(w: Walk, b: Byte)
    requires ValidState(w.state) && Consume(w, b).Go? && Consume(w, b).next.state.Signature? && Consume(w, b).next.state.got != []
    ensures var got := Consume(w, b).next.state.got;
            && w.state == Signature(got[..|got| - 1]) && got[|got| - 1] == b
            && Consume(w, b) == Go(w.(state := Signature(got), offset := w.offset + 1), [], None)
  {
    hide ScanPending, ParseLocal, ParseCentral, ParseEnd, ParseZip64End, ReconcileEnd, LocalSizes, CentralFacts, Check, BodySizes, BodyCrc;
    if InMember(w.state) {
      var x := MemberStep(w, b);
    }
  }

  lemma {:induction false} SignatureBack(s: seq<Byte>)
    requires Run(START, s).Some? && Run(START, s).value.next.state.Signature?
    ensures var r := Run(START, s).value;
            var k := |s| - |r.next.state.got|;
            && 0 <= k && s[k..] == r.next.state.got
            && Run(START, s[..k]) == Some(Ran(r.next.(state := Signature([]), offset := k), r.events))
  {
    hide Consume;
    OffsetCounts(s);
    var r := Run(START, s).value;
    if r.next.state.got == [] {
      assert s[..|s|] == s;
    } else {
      var front, b := s[..|s| - 1], s[|s| - 1];
      var w := Run(START, front).value.next;
      StepToSignature(w, b);
      SignatureBack(front);
      var k := |s| - |r.next.state.got|;
      assert front[..k] == s[..k] && s[k..] == front[k..] + [b];
      assert r.events == Run(START, front).value.events;
    }
  }

  /** Before the directory begins nothing of it has been counted. */
  predicate Fresh(w: Walk) {
    w.centralStart.None? ==> w.centralCount == 0 && w.zip64End.None?
  }

  lemma FreshStep(w: Walk, b: Byte)
    requires Ordered(w) && Fresh(w) && Consume(w, b).Go?
    ensures Fresh(Consume(w, b).next)
    ensures w.centralStart.None? && Consume(w, b).next.centralStart.Some? ==>
              && w.state.Signature? && |w.state.got| == 3 && w.phase == Members && w.state.got + [b] != LOCAL_HEADER
              && Consume(w, b).events == [CentralBegun]
  {
    hide ScanPending, ParseLocal, ParseCentral, ParseEnd, ParseZip64End, ReconcileEnd, LocalSizes, CentralFacts, Check, BodySizes, BodyCrc;
    if InMember(w.state) {
      var x := MemberStep(w, b);
    }
  }

  lemma {:induction false} AlwaysFresh(s: seq<Byte>)
    requires Run(START, s).Some?
    ensures Fresh(Run(START, s).value.next) && Ordered(Run(START, s).value.next)
  {
    hide Consume, Ordered, Follows, Fresh;
    var p := RunShape(s);
    FollowsOrdered(p, Run(START, s).value.next);
    if s == [] {
      StartFresh();
    } else {
      AlwaysFresh(s[..|s| - 1]);
      FreshStep(Run(START, s[..|s| - 1]).value.next, s[|s| - 1]);
    }
  }

  lemma StartFresh()
    ensures Fresh(START)
  {
  }

  lemma FollowsOrdered(p: Progress, w: Walk)
    requires Follows(p, w)
    ensures Ordered(w) && (p.head.None? <==> !InMember(w.state)) && (w.state.Signature? ==> w.localCount == |p.done|)
    ensures p.begun <==> w.centralStart.Some?
  {
    hide Ordered, Counts;
  }

  /** A walk past the members was at a member boundary where the directory begins, and reported that there. */
  lemma {:induction false} BeginsAt(s: seq<Byte>) returns (k: nat)
    requires Run(START, s).Some? && Run(START, s).value.next.centralStart.Some?
    ensures k + 4 <= |s| && !Begins(s[k..], LOCAL_HEADER) && Run(START, s[..k]).Some?
    ensures var r := Run(START, s[..k]).value;
            && r.next.state == Signature([]) && r.next.phase == Members && r.next.centralStart.None? && r.next.offset == k
            && Run(START, s[..k + 4]).Some? && Run(START, s[..k + 4]).value.events == r.events + [CentralBegun]
  {
    hide Consume, Ordered;
    var front, b := s[..|s| - 1], s[|s| - 1];
    var w := Run(START, front).value.next;
    if w.centralStart.Some? {
      k := BeginsAt(front);
      assert front[..k] == s[..k] && front[..k + 4] == s[..k + 4] && front[k..k + 4] == s[k..k + 4];
      SameBegins(front[k..], s[k..]);
    } else {
      AlwaysFresh(front);
      FreshStep(w, b);
      SignatureBack(front);
      k := |front| - 3;
      assert front[..k] == s[..k] && s[..k + 4] == s && s[k..] == front[k..] + [b];
    }
  }

  lemma SameBegins(x: seq<Byte>, y: seq<Byte>)
    requires 4 <= |x| && 4 <= |y| && x[..4] == y[..4]
    ensures Begins(x, LOCAL_HEADER) <==> Begins(y, LOCAL_HEADER)
  {
    assert Begins(x, LOCAL_HEADER) <==> x[..4] == LOCAL_HEADER;
    assert Begins(y, LOCAL_HEADER) <==> y[..4] == LOCAL_HEADER;
  }

  lemma {:induction false} NoneBegun(ms: seq<Source>)
    ensures CentralBegun !in SourcesEvents(ms)
  {
    if ms != [] {
      NoneBegun(ms[..|ms| - 1]);
    }
  }

  /** What comes before the directory is reported first, and the directory once. */
  lemma BegunOnce(a: seq<Event>, more: seq<Event>, b: seq<Event>)
    requires a + [CentralBegun] + more == b + [CentralBegun] && CentralBegun !in b
    ensures a == b
  {
    var all := b + [CentralBegun];
    assert all[|a|] == CentralBegun;
    assert forall i :: 0 <= i < |b| ==> all[i] == b[i];
    assert (a + [CentralBegun] + more)[..|a|] == a && all[..|b|] == b;
  }

  lemma BegunIn(p: Progress)
    requires p.head.Some? ==> p.head.value.LocalHeaderRead?
    ensures CentralBegun in ProgressEvents(p) <==> p.begun
  {
    hide SourcesEvents;
    NoneBegun(p.done);
    assert CentralBegun !in DataEvents(p.raw);
  }

  lemma HeadRead(p: Progress, w: Walk)
    requires Follows(p, w)
    ensures p.head.Some? ==> p.head.value.LocalHeaderRead?
  {
    hide Ordered, Counts;
  }

  lemma InMembers(w: Walk)
    requires Ordered(w) && w.state == Signature([])
    ensures w.phase == Members <==> w.centralStart.None?
  {
  }

  /** Between records the walker is at a member boundary until it has reported the directory, and never after. */
  lemma BoundaryExactly(s: seq<Byte>)
    requires Run(START, s).Some?
    ensures var r := Run(START, s).value; AtMemberBoundary(r.next) <==> r.next.state == Signature([]) && CentralBegun !in r.events
  {
    hide Run, Follows, Ordered, ProgressEvents;
    var r := Run(START, s).value;
    var p := RunShape(s);
    FollowsOrdered(p, r.next);
    HeadRead(p, r.next);
    BegunIn(p);
    if r.next.state == Signature([]) {
      InMembers(r.next);
    }
  }

  /**
   * The bytes of an archive that is walked to its end, from where its directory begins: as many entries as members were
   * reported, each of plausible sizes and for a member before the directory, then end records that say that number, and
   * where the directory is and how long. Nothing else is let through.
   */
  lemma DirectoryTells(s: seq<Byte>, ms: seq<Source>) returns (start: nat)
    requires Reports(s, PackageEvents(ms))
    ensures start <= |s| && !Begins(s[start..], LOCAL_HEADER) && TailReads(s[start..], 0, start, start, |ms|)
    ensures Run(START, s[..start]).Some? && Run(START, s[..start]).value.events == SourcesEvents(ms)
  {
    hide Run, MayFinish, SourcesEvents, TailReads, Follows;
    var whole := RunShape(s);
    FinishedBegun(s, ms);
    start := BeginsAt(s);
    var pre, t, r := s[..start], s[start..], Run(START, s[..start]).value;
    var p := RunShape(pre);
    FollowsOrdered(p, r.next);
    AlwaysFresh(pre);
    assert pre + t == s && s == s[..start + 4] + s[start + 4..];
    RunThen(START, s[..start + 4], s[start + 4..]);
    Reported(p, r.events);
    NoneBegun(ms);
    BegunOnce(r.events, Run(Run(START, s[..start + 4]).value.next, s[start + 4..]).value.events, SourcesEvents(ms));
    SourcesTellApart(p.done, ms);
    FinishesThen(START, pre, t, r.next, r.events);
    TailBegins(r.next, t);
  }

  lemma Reported(p: Progress, events: seq<Event>)
    requires events == ProgressEvents(p) && p.head.None? && !p.begun
    ensures events == SourcesEvents(p.done)
  {
    hide SourcesEvents;
    assert SourcesEvents(p.done) + [] + [] == SourcesEvents(p.done);
  }

  lemma FinishedBegun(s: seq<Byte>, ms: seq<Source>)
    requires Run(START, s).Some? && MayFinish(Run(START, s).value.next)
    ensures Run(START, s).value.next.centralStart.Some?
  {
    hide Run;
    var p := RunShape(s);
  }

  /** And everything of that kind is: members and then such a tail. */
  lemma TailSuffices(s: seq<Byte>, start: nat)
    requires start <= |s| && Run(START, s[..start]).Some?
    requires var w := Run(START, s[..start]).value.next; w.state == Signature([]) && w.phase == Members && w.centralStart.None?
    requires !Begins(s[start..], LOCAL_HEADER)
    ensures var w := Run(START, s[..start]).value.next; Finishes(START, s) <==> TailReads(s[start..], 0, start, start, w.localCount)
  {
    hide Run, MayFinish, TailReads, Fresh;
    var r := Run(START, s[..start]).value;
    AlwaysFresh(s[..start]);
    OffsetCounts(s[..start]);
    IsFresh(r.next);
    assert s[..start] + s[start..] == s;
    FinishesThen(START, s[..start], s[start..], r.next, r.events);
    TailBegins(r.next, s[start..]);
  }

  lemma IsFresh(w: Walk)
    requires Fresh(w) && w.centralStart.None?
    ensures w.centralCount == 0 && w.zip64End.None?
  {
  }

  // Archives whose directory lists another number of members than they hold.

  /** A tail reads for one number of members only. */
  lemma {:induction false} OneCount(t: seq<Byte>, count: nat, start: nat, at: nat, a: nat, b: nat)
    requires TailReads(t, count, start, at, a) && TailReads(t, count, start, at, b)
    ensures a == b
    decreases |t|
  {
    hide CentralFacts, Check, UnLe;
    if Begins(t, CENTRAL_HEADER) {
      OneCount(t[EntryLen(t)..], count + 1, start, at + EntryLen(t), a, b);
    }
  }

  /** Members, and a directory of any entries for them, some perhaps twice: let through exactly when there are as many. */
  lemma CountsMustAgree(ms: seq<Member>, es: seq<CentralEntry>)
    requires (forall i :: 0 <= i < |ms| ==> Framed(ms[i])) && |es| <= MAX64 && |Locals(ms)| + |Directory(es)| <= MAX64
    requires forall i :: 0 <= i < |es| ==> Recordable(es[i]) && es[i].offset < |Locals(ms)|
    ensures Finishes(START, Locals(ms) + Tail(es, |Locals(ms)|)) <==> |ms| == |es|
  {
    hide Run, MayFinish, TailReads, Locals, Tail, Directory, Recordable, Framed;
    var start := |Locals(ms)|;
    var t, s := Tail(es, start), Locals(ms) + Tail(es, start);
    LocalsRun(ms);
    assert s[..start] == Locals(ms) && s[start..] == t;
    var w := START.(offset := start, localCount := |es|);
    TailRun(w, es);
    PrintedTail(es, start);
    TailTold(w, t);
    TailSuffices(s, start);
    if TailReads(t, 0, start, start, |ms|) {
      OneCount(t, 0, start, start, |ms|, |es|);
    }
  }

  lemma TailTold(w: Walk, t: seq<Byte>)
    requires w.state == Signature([]) && w.phase == Members && w.centralStart.None? && w.centralCount == 0 && w.zip64End.None?
    requires Finishes(w, t) && !Begins(t, LOCAL_HEADER)
    ensures TailReads(t, 0, w.offset, w.offset, w.localCount)
  {
    hide Run, MayFinish, TailReads;
    TailBegins(w, t);
  }

  lemma {:induction false} DirectoryFront(es: seq<CentralEntry>)
    requires es != []
    ensures Begins(Directory(es), CENTRAL_HEADER)
  {
    hide CentralFixed, CentralExtra;
    if |es| == 1 {
      assert es[..0] == [] && Directory(es) == [] + CentralHeaderBytes(es[0]) == CentralHeaderBytes(es[0]);
    } else {
      DirectoryFront(es[..|es| - 1]);
    }
  }

  /** No printed tail is a local header. */
  lemma PrintedTail(es: seq<CentralEntry>, start: nat)
    ensures !Begins(Tail(es, start), LOCAL_HEADER)
  {
    hide Directory, Zip64EndFixedBytes, LocatorFixedBytes, EndFixedBytes;
    var t := Tail(es, start);
    if es == [] {
      assert Directory(es) == [] by { NoEntries(); }
      assert t[2] == 5 || t[2] == 6;
    } else {
      DirectoryFront(es);
      assert t[2] == CENTRAL_HEADER[2] == 1;
    }
  }

  lemma NoEntries()
    ensures Directory([]) == []
  {
  }

  /** A member that its directory lists twice, as entries that overlap do: refused. */
  lemma ListedTwice(m: Member)
    requires Framed(m) && |LocalBytes(m)| <= MAX32
    ensures var e := EntryOf(m, 0); !Finishes(START, LocalBytes(m) + Tail([e, e], |LocalBytes(m)|))
  {
    hide Run, MayFinish, LocalBytes, Tail, CentralHeaderBytes, NoEarlyDescriptor;
    var e := EntryOf(m, 0);
    assert [m][..0] == [] && Locals([m]) == [] + LocalBytes(m) == LocalBytes(m);
    assert [e, e][..1] == [e] && [e][..0] == [];
    assert Directory([e, e]) == Directory([e]) + CentralHeaderBytes(e) && Directory([e]) == [] + CentralHeaderBytes(e);
    LocalLen(m);
    EntryBytes(e);
    CountsMustAgree([m], [e, e]);
  }
}
