/** What the gzip reader tells of a stream: the TAR archive inside, or one member (src/decompose/gzip.rs, src/decompose/decomposer.rs). */
module GzipAccounts {
  import opened Bytes
  import opened DecomposeSink
  import opened DecomposeReading
  import opened DecomposeReaders
  import opened TarAccounts
  import T = TarWalker
  import O = OoxmlCore
  import R = ZipRecords

  /** Everything unwrapping yields, unless it fails somewhere. */
  function Unwrapped(gunzip: Gunzip, s: seq<Byte>): Option<seq<Byte>> {
    if s == [] then Some([])
    else
      match Unwrapped(gunzip, s[..|s| - 1])
      case None => None
      case Some(data) =>
        match gunzip.push(s[..|s| - 1], s[|s| - 1])
        case Bad(_) => None
        case Made(more) => Some(data + more)
  }

  /** How many bytes are in when what the stream wraps is decided: when 512 have come out of them, or all are. */
  function DecidedAt(gunzip: Gunzip, s: seq<Byte>): (n: nat)
    ensures n <= |s|
  {
    if s == [] then 0
    else
      var front := Unwrapped(gunzip, s[..|s| - 1]);
      if front.Some? && |front.value| >= 512 then DecidedAt(gunzip, s[..|s| - 1]) else |s|
  }

  /** The member of a stream that wraps no archive is named by the stream, and numbered zero. */
  function Named(gunzip: Gunzip, s: seq<Byte>): Meta {
    Meta(gunzip.name(s[..DecidedAt(gunzip, s)]), 0, None, None, None)
  }

  const ARCHIVE := Between(Past(TarGzip, []))

  /** Unwrapping works, and an archive inside can be walked. */
  predicate Walks(gunzip: Gunzip, s: seq<Byte>) {
    && Unwrapped(gunzip, s).Some?
    && (IsTarPrefix(Unwrapped(gunzip, s).value) ==> T.Run(T.START, Unwrapped(gunzip, s).value).Some?)
  }

  /** Where the reader is after `s`, and what it has told. */
  predicate StandsAt(gunzip: Gunzip, s: seq<Byte>, r: GzReader, t: Told)
    requires Walks(gunzip, s)
  {
    var data := Unwrapped(gunzip, s).value;
    && r.consumed == s
    && match r.inner
       case Undecided(buffer) => buffer == data && |data| < 512 && t == Unannounced
       case InTar(tar) =>
         IsTarPrefix(data) && tar.walker == T.Run(T.START, data).value.next
         && t == HearAll(ARCHIVE, T.Run(T.START, data).value.reports) && InStep(tar, t)
       case Single(n) =>
         !IsTarPrefix(data) && 512 <= |data| && n == |data| && t == Inside(Past(Gzip, []), Named(gunzip, s), data)
  }

  /** Only the first 512 bytes tell an archive. */
  lemma PrefixTells(x: seq<Byte>, y: seq<Byte>)
    requires |x| >= 512
    ensures IsTarPrefix(x + y) == IsTarPrefix(x)
  {
    hide T.ChecksumMatches;
    assert (x + y)[257..262] == x[257..262] && (x + y)[..512] == x[..512];
  }

  lemma {:induction false} TarAllHears(r: TarReader, t: Told, bytes: seq<Byte>)
    requires InStep(r, t)
    ensures var p, run := PushTarAll(r, bytes), T.Run(r.walker, bytes);
            && (p.Pushed? <==> run.Some?)
            && (p.Pushed? ==>
                  && p.next.walker == run.value.next && TellAll(t, p.events) == Some(HearAll(t, run.value.reports))
                  && InStep(p.next, HearAll(t, run.value.reports)))
    decreases |bytes|
  {
    hide PushTar, T.Consume, TellAll, Hear, InStep;
    NothingTold(t);
    if bytes != [] {
      var b, rest := bytes[0], bytes[1..];
      assert bytes == [b] + rest && [b][..0] == [];
      StepHeard(r, b, t);
      T.RunThen(r.walker, [b], rest);
      var step := T.Consume(r.walker, b);
      if PushTar(r, b).Pushed? {
        var one := PushTar(r, b);
        var u := HearAll(t, T.Reported(step.event, b));
        TarAllHears(one.next, u, rest);
        if PushTarAll(one.next, rest).Pushed? {
          TellThen(t, one.events, PushTarAll(one.next, rest).events);
        }
        assert [] + T.Reported(step.event, b) == T.Reported(step.event, b);
        if T.Run(step.next, rest).Some? {
          HearThen(t, T.Reported(step.event, b), T.Run(step.next, rest).value.reports);
        }
      }
    }
  }

  /** The first bytes decide: an archive is announced and walked, anything else is one member. */
  lemma DecidesAs(gunzip: Gunzip, s: seq<Byte>, buffer: seq<Byte>)
    ensures var d := Decide(gunzip, s, buffer);
            if IsTarPrefix(buffer) then
              (d.Pushed? <==> T.Run(T.START, buffer).Some?)
              && (d.Pushed? ==>
                    var t := HearAll(ARCHIVE, T.Run(T.START, buffer).value.reports);
                    && d.next.inner.InTar? && d.next.consumed == s && d.next.inner.tar.walker == T.Run(T.START, buffer).value.next
                    && TellAll(Unannounced, d.events) == Some(t) && InStep(d.next.inner.tar, t))
            else
              d.Pushed? && d.next == GzReader(s, Single(|buffer|))
              && TellAll(Unannounced, d.events) == Some(Inside(Past(Gzip, []), Meta(gunzip.name(s), 0, None, None, None), buffer))
  {
    hide PushTarAll, TellAll, IsTarPrefix, PushBytes, T.Run, HearAll;
    if IsTarPrefix(buffer) {
      TarAllHears(NEW_TAR, ARCHIVE, buffer);
      TellOne(Unannounced, Announce(TarGzip));
      if PushTarAll(NEW_TAR, buffer).Pushed? {
        TellThen(Unannounced, [Announce(TarGzip)], PushTarAll(NEW_TAR, buffer).events);
      }
    } else {
      var meta := Meta(gunzip.name(s), 0, None, None, None);
      var opening := [Announce(Gzip), ReadStart(meta)];
      assert opening == [Announce(Gzip)] + [ReadStart(meta)];
      TellOne(Unannounced, Announce(Gzip));
      TellMore(Unannounced, [Announce(Gzip)], ReadStart(meta));
      TellBytes(Unannounced, opening, buffer);
      assert [] + buffer == buffer;
    }
  }

  lemma WalkPrefix(x: seq<Byte>, y: seq<Byte>)
    ensures T.Run(T.START, x + y) == T.Then(T.Run(T.START, x), y)
  {
    T.RunThen(T.START, x, y);
  }

  /** Nothing decided yet: the bytes that come may decide. */
  lemma UndecidedStands(gunzip: Gunzip, front: seq<Byte>, b: Byte, r: GzReader, more: seq<Byte>)
    requires Walks(gunzip, front) && StandsAt(gunzip, front, r, Unannounced) && r.inner.Undecided? && gunzip.push(front, b) == O.Made(more)
    ensures var s, p := front + [b], PushGz(gunzip, r, b);
            && (p.Pushed? <==> Walks(gunzip, s))
            && (p.Pushed? ==> TellAll(Unannounced, p.events).Some? && StandsAt(gunzip, s, p.next, TellAll(Unannounced, p.events).value))
  {
    hide TellAll, IsTarPrefix, T.Run, HearAll, Decide, InStep;
    var s, data := front + [b], Unwrapped(gunzip, front).value;
    var all := data + more;
    assert s[..|s| - 1] == front && s[..|s|] == s;
    NothingTold(Unannounced);
    DecidesAs(gunzip, s, all);
    if more == [] || |all| < 512 {
      ShortNoTar(all);
      assert more == [] ==> all == data;
    }
  }

  /** Inside an archive, or a single member, more of it comes. */
  lemma DecidedStands(gunzip: Gunzip, front: seq<Byte>, b: Byte, r: GzReader, t: Told, more: seq<Byte>)
    requires Walks(gunzip, front) && StandsAt(gunzip, front, r, t) && !r.inner.Undecided? && gunzip.push(front, b) == O.Made(more)
    ensures var s, p := front + [b], PushGz(gunzip, r, b);
            && (p.Pushed? <==> Walks(gunzip, s))
            && (p.Pushed? ==> TellAll(t, p.events).Some? && StandsAt(gunzip, s, p.next, TellAll(t, p.events).value))
  {
    hide PushTarAll, TellAll, IsTarPrefix, PushBytes, T.Run, HearAll, InStep;
    var s, data := front + [b], Unwrapped(gunzip, front).value;
    var all := data + more;
    assert s[..|s| - 1] == front;
    assert more == [] ==> all == data;
    NothingTold(t);
    TarLong(data);
    PrefixTells(data, more);
    match r.inner {
      case InTar(tar) =>
        WalkPrefix(data, more);
        TarAllHears(tar, t, more);
        if T.Run(tar.walker, more).Some? {
          HearThen(ARCHIVE, T.Run(T.START, data).value.reports, T.Run(tar.walker, more).value.reports);
        }
      case Single(n) =>
        assert DecidedAt(gunzip, s) == DecidedAt(gunzip, front) && s[..DecidedAt(gunzip, s)] == front[..DecidedAt(gunzip, front)];
        TellBytes(t, [], more);
    }
  }

  /** One more byte of the stream. */
  lemma StepStands(gunzip: Gunzip, front: seq<Byte>, b: Byte, r: GzReader, t: Told)
    requires Walks(gunzip, front) && StandsAt(gunzip, front, r, t)
    ensures var s, p := front + [b], PushGz(gunzip, r, b);
            && (p.Pushed? <==> Walks(gunzip, s))
            && (p.Pushed? ==> TellAll(t, p.events).Some? && StandsAt(gunzip, s, p.next, TellAll(t, p.events).value))
  {
    hide PushTarAll, TellAll, IsTarPrefix, PushBytes, T.Run, HearAll, Decide, InStep;
    if gunzip.push(front, b).Made? {
      if r.inner.Undecided? {
        UndecidedStands(gunzip, front, b, r, gunzip.push(front, b).bytes);
      } else {
        DecidedStands(gunzip, front, b, r, t, gunzip.push(front, b).bytes);
      }
    } else {
      assert (front + [b])[..|front + [b]| - 1] == front;
      assert Unwrapped(gunzip, front + [b]).None?;
    }
  }

  lemma ShortNoTar(data: seq<Byte>)
    ensures |data| < 512 ==> !IsTarPrefix(data)
  {
  }

  lemma TarLong(data: seq<Byte>)
    ensures IsTarPrefix(data) ==> |data| >= 512
  {
  }

  lemma WalksBefore(gunzip: Gunzip, s: seq<Byte>)
    requires s != [] && Walks(gunzip, s)
    ensures Walks(gunzip, s[..|s| - 1])
  {
    hide IsTarPrefix, T.Run;
    var front := Unwrapped(gunzip, s[..|s| - 1]).value;
    var more := gunzip.push(s[..|s| - 1], s[|s| - 1]).bytes;
    if IsTarPrefix(front) {
      TarLong(front);
      PrefixTells(front, more);
      WalkPrefix(front, more);
    }
  }

  /** Reading byte by byte stands where unwrapping and the walk over what is unwrapped do. */
  lemma {:induction false} ReadingStandsAt(lib: O.Library, gunzip: Gunzip, infer: (seq<Byte>, seq<Byte>) -> Inferred, kind: ContainerKind, s: seq<Byte>)
    requires kind == Gzip || kind == TarGzip
    ensures var reading := Reading(ContainerReaders(lib, gunzip, infer), kind, s);
            && (reading.Some? <==> Walks(gunzip, s))
            && (reading.Some? ==>
                  reading.value.reader.GzLevel? && reading.value.office == None && StandsAt(gunzip, s, reading.value.reader.gz, reading.value.told))
  {
    hide PushTar, PushZip, PushGz, TellAll, StandsAt, Walks;
    var readers := ContainerReaders(lib, gunzip, infer);
    if s == [] {
      StandsFirst(gunzip);
    } else {
      var front, b := s[..|s| - 1], s[|s| - 1];
      ReadingStandsAt(lib, gunzip, infer, kind, front);
      assert front + [b] == s;
      if Walks(gunzip, front) {
        var st := Reading(readers, kind, front).value;
        StepStands(gunzip, front, b, st.reader.gz, st.told);
        if PushGz(gunzip, st.reader.gz, b).Pushed? {
          NoLabels(readers, GzLevel(PushGz(gunzip, st.reader.gz, b).next), PushGz(gunzip, st.reader.gz, b).events);
        }
      } else if Walks(gunzip, s) {
        WalksBefore(gunzip, s);
      }
    }
  }

  lemma StandsFirst(gunzip: Gunzip)
    ensures Walks(gunzip, []) && StandsAt(gunzip, [], NEW_GZ, Unannounced)
  {
    ShortNoTar([]);
  }

  /**
   * A gzip stream is read out exactly when it unwraps, ends well, and an archive it wraps may finish. It is read out as that
   * archive, told as a TAR inside gzip, or as its one member: all the unwrapped bytes.
   */
  lemma GzipAccount(lib: O.Library, gunzip: Gunzip, infer: (seq<Byte>, seq<Byte>) -> Inferred, kind: ContainerKind, s: seq<Byte>)
    requires kind == Gzip || kind == TarGzip
    ensures var out := ReadOut(ContainerReaders(lib, gunzip, infer), kind, s);
            var unwrapped := Unwrapped(gunzip, s);
            var archive := unwrapped.Some? && IsTarPrefix(unwrapped.value);
            && (out.Some? <==> Walks(gunzip, s) && gunzip.close(s) && (archive ==> T.MayFinish(T.Run(T.START, unwrapped.value).value.next)))
            && (out.Some? ==>
                  out.value.office == None &&
                  if archive then Between(out.value.past) == HearAll(ARCHIVE, T.Run(T.START, unwrapped.value).value.reports)
                  else out.value.past == Past(Gzip, [AMember(Named(gunzip, s), unwrapped.value)]))
  {
    hide Reading, TellAll, IsTarPrefix, PushBytes, T.Run, HearAll, Decide;
    var readers := ContainerReaders(lib, gunzip, infer);
    ReadingStandsAt(lib, gunzip, infer, kind, s);
    if Walks(gunzip, s) {
      var st := Reading(readers, kind, s).value;
      NothingTold(st.told);
      match st.reader.gz.inner {
        case Undecided(buffer) =>
          ShortNoTar(buffer);
          DecidesAs(gunzip, s, buffer);
          StillUndecided(gunzip, s);
          var d := Decide(gunzip, s, buffer);
          TellMore(Unannounced, d.events, ReadEnd(|buffer|));
          NoLabels(readers, st.reader, d.events + [ReadEnd(|buffer|)]);
        case InTar(tar) =>
          NoLabels(readers, st.reader, []);
        case Single(n) =>
          TellOne(st.told, ReadEnd(n));
          NoLabels(readers, st.reader, [ReadEnd(n)]);
      }
    }
  }

  lemma StillUndecided(gunzip: Gunzip, s: seq<Byte>)
    requires Unwrapped(gunzip, s).Some? && |Unwrapped(gunzip, s).value| < 512
    ensures DecidedAt(gunzip, s) == |s| && s[..|s|] == s
  {
  }

  // How a container is told by its first bytes.

  /** A gzip stream by its magic; a ZIP archive by a local header or, when it is empty, an end record; a TAR by its magic or its checksum. */
  lemma PrefixKinds(s: seq<Byte>)
    ensures var gz := 2 <= |s| && s[0] == 0x1F && s[1] == 0x8B;
            var zip := 4 <= |s| && s[..2] == Ascii("PK") && (s[2..4] == [3, 4] || s[2..4] == [5, 6]);
            var tar := 512 <= |s| && (s[257..262] == Ascii("ustar") || T.ChecksumMatches(s[..512]));
            ContainerByPrefix(s) == if gz then Some(Gzip) else if zip then Some(Zip) else if tar then Some(Tar) else None
  {
    hide T.ChecksumMatches;
    var ustar, pk := "ustar", "PK";
    assert ustar[0] == 'u' && ustar[1] == 's' && ustar[2] == 't' && ustar[3] == 'a' && ustar[4] == 'r' && pk[0] == 'P' && pk[1] == 'K';
    assert Ascii("ustar") == T.USTAR;
    if 4 <= |s| {
      assert s[..4] == s[..2] + s[2..4];
      assert Ascii("PK") + [3, 4] == R.LOCAL_HEADER && Ascii("PK") + [5, 6] == R.END_OF_CENTRAL_DIRECTORY;
      assert s[..4] == [s[0], s[1], s[2], s[3]] && s[..2] == [s[0], s[1]] && s[2..4] == [s[2], s[3]];
    }
  }
}
