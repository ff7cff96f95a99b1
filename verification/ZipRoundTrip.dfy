/** Walking what the canonical printers print (sections 4.3.7 to 4.3.16 of APPNOTE). */
module ZipRoundTrip {
  import opened Bytes
  import opened ZipRecords
  import opened ZipWalker
  import opened ZipScan
  import opened ZipWriter
  import opened ZipHeaders

  // Reading back each record.

  lemma ReadsLocal(version: nat, flags: nat, crc: nat, size: nat, nameLen: nat, extraLen: nat)
    requires flags <= MAX16 && crc <= MAX32 && size <= MAX32 && nameLen <= MAX16 && extraLen <= MAX16
    ensures ParseLocal(LocalFixed(version, flags, crc, size, nameLen, extraLen)) ==
            LocalHeader(METHOD_STORED, crc, HasFlag(flags, FLAG_DESCRIPTOR), HasFlag(flags, FLAG_UTF8), HasFlag(flags, FLAG_ENCRYPTED),
                        size, size, nameLen, extraLen)
  {
    hide Le, ParseLocal;
    ReadsRecord(version, flags, METHOD_STORED, crc, size, size, nameLen, extraLen);
    assert LocalFixed(version, flags, crc, size, nameLen, extraLen) ==
           LocalRecord(version, flags, METHOD_STORED, crc, size, size, nameLen, extraLen);
  }

  lemma FlagsRead(utf8: bool)
    ensures !HasFlag(Utf8Flag(utf8), FLAG_DESCRIPTOR) && !HasFlag(Utf8Flag(utf8), FLAG_ENCRYPTED)
    ensures HasFlag(Utf8Flag(utf8), FLAG_UTF8) == utf8
    ensures HasFlag(FLAG_DESCRIPTOR + Utf8Flag(utf8), FLAG_DESCRIPTOR) && !HasFlag(FLAG_DESCRIPTOR + Utf8Flag(utf8), FLAG_ENCRYPTED)
    ensures HasFlag(FLAG_DESCRIPTOR + Utf8Flag(utf8), FLAG_UTF8) == utf8
  {
  }

  lemma ReadsLocalSizes(h: LocalHeader, len: nat)
    requires len <= MAX64 && h.compressed == h.uncompressed == if NeedsZip64Len(len) then MAX32 else len
    ensures LocalSizes(h, LocalExtra(len)) == Ok(MemberSizes(len, len))
  {
    hide Le, UnLe, FindZip64;
    if NeedsZip64Len(len) {
      var data := Le(len, 8) + Le(len, 8);
      assert LocalExtra(len) == Le(ZIP64_ID, 2) + Le(|data|, 2) + data;
      FindsZip64(data);
      assert data[0..8] == Le(len, 8) && data[8..16] == Le(len, 8);
      PowersOf256();
      UnLeLe(len, 8);
    }
  }

  /** An entry whose fields fit the record. */
  predicate Recordable(e: CentralEntry) {
    |e.name| <= MAX16 && e.crc <= MAX32 && e.len <= MAX64 && e.offset <= MAX64
  }

  lemma ReadsCentral(e: CentralEntry)
    requires Recordable(e)
    ensures var size := if NeedsZip64Len(e.len) then MAX32 else e.len;
            ParseCentral(CentralFixed(e)) ==
            CentralHeader(METHOD_STORED, size, size, |e.name|, |CentralExtra(e)|, 0, if e.offset >= MAX32 then MAX32 else e.offset)
  {
    hide Le, ParseCentral;
    var size := if NeedsZip64Len(e.len) then MAX32 else e.len;
    var offset := if e.offset >= MAX32 then MAX32 else e.offset;
    var version := if NeedsZip64Len(e.len) || e.offset >= MAX32 then VERSION_ZIP64 else VERSION_PLAIN;
    var flags := Utf8Flag(e.utf8) + if e.descriptor then FLAG_DESCRIPTOR else 0;
    var r := CentralRecord(version, version, flags, METHOD_STORED, 0, 0, e.crc, size, size, |e.name|, |CentralExtra(e)|, 0, 0, 0, 0, offset);
    ReadsEntry(r);
    assert CentralFixed(e) == PrintCentral(r);
  }

  lemma ReadsCentralFacts(e: CentralEntry)
    requires Recordable(e)
    ensures CentralFacts(ParseCentral(CentralFixed(e)), CentralExtra(e)) == Ok(Located(MemberSizes(e.len, e.len), e.offset))
  {
    hide Le, UnLe, FindZip64, CentralFixed, ParseCentral;
    ReadsCentral(e);
    PowersOf256();
    UnLeLe(e.len, 8);
    UnLeLe(e.offset, 8);
    var sizes := if NeedsZip64Len(e.len) then Le(e.len, 8) + Le(e.len, 8) else [];
    var offsets := if e.offset >= MAX32 then Le(e.offset, 8) else [];
    var data := sizes + offsets;
    if data != [] {
      assert CentralExtra(e) == Le(ZIP64_ID, 2) + Le(|data|, 2) + data;
      FindsZip64(data);
      if NeedsZip64Len(e.len) {
        assert data[0..8] == Le(e.len, 8) && data[8..16] == Le(e.len, 8);
        if e.offset >= MAX32 {
          assert data[16..24] == Le(e.offset, 8);
        }
      } else {
        assert data[0..8] == Le(e.offset, 8);
      }
    }
  }

  lemma ReadsEnd(count: nat, size: nat, offset: nat)
    requires count <= MAX16 && size <= MAX32 && offset <= MAX32
    ensures ParseEnd(EndFixedBytes(count, size, offset)) == EndRecord(count, size, offset, 0)
  {
    hide Le, UnLe;
    var b := EndFixedBytes(count, size, offset);
    var a1 := Le(0, 2);
    var a2 := a1 + Le(0, 2);
    var a3 := a2 + Le(count, 2);
    var a4 := a3 + Le(count, 2);
    var a5 := a4 + Le(size, 4);
    var a6 := a5 + Le(offset, 4);
    var a7 := a6 + Le(0, 2);
    assert b == a7;
    PrefixField(b, a6, Le(0, 2));
    PrefixField(b, a5, Le(offset, 4));
    PrefixField(b, a4, Le(size, 4));
    PrefixField(b, a3, Le(count, 2));
    PrefixField(b, a2, Le(count, 2));
    PrefixField(b, a1, Le(0, 2));
    PowersOf256();
    UnLeLe(count, 2);
    UnLeLe(size, 4);
    UnLeLe(offset, 4);
    UnLeLe(0, 2);
  }

  lemma ReadsZip64End(count: nat, size: nat, offset: nat)
    requires count <= MAX64 && size <= MAX64 && offset <= MAX64
    ensures ParseZip64End(Zip64EndFixedBytes(count, size, offset)) == Ok(Zip64EndRecord(count, size, offset, 0))
  {
    hide Le, UnLe;
    var b := Zip64EndFixedBytes(count, size, offset);
    var a1 := Le(44, 8);
    var a2 := a1 + Le(VERSION_ZIP64, 2);
    var a3 := a2 + Le(VERSION_ZIP64, 2);
    var a4 := a3 + Le(0, 4);
    var a5 := a4 + Le(0, 4);
    var a6 := a5 + Le(count, 8);
    var a7 := a6 + Le(count, 8);
    var a8 := a7 + Le(size, 8);
    var a9 := a8 + Le(offset, 8);
    assert b == a9;
    PrefixField(b, a8, Le(offset, 8));
    PrefixField(b, a7, Le(size, 8));
    PrefixField(b, a6, Le(count, 8));
    PrefixField(b, a5, Le(count, 8));
    PrefixField(b, a4, Le(0, 4));
    PrefixField(b, a3, Le(0, 4));
    PrefixField(b, a2, Le(VERSION_ZIP64, 2));
    PrefixField(b, a1, Le(VERSION_ZIP64, 2));
    assert b[0..8] == a1;
    PowersOf256();
    UnLeLe(44, 8);
    UnLeLe(count, 8);
    UnLeLe(size, 8);
    UnLeLe(offset, 8);
  }

  lemma ReadsDescriptor(crc: nat, len: nat)
    requires crc <= MAX32 && len <= MAX32
    ensures BodySizes(false, DescriptorBody(crc, len)) == MemberSizes(len, len) && BodyCrc(DescriptorBody(crc, len)) == crc
  {
    hide Le, BodySizes, BodyCrc;
    ReadsBody(crc, len, len);
  }

  // Runs of the walker over one part of a record.

  /** A step taken on the last byte of a part ending at `offset`. */
  function Landed(step: Step, offset: nat): Option<Ran> {
    match step
    case Go(next, events, _) => Some(Ran(next.(offset := offset), events))
    case Stop(_) => None
  }

  lemma ConsumeSignature(w: Walk, b: Byte)
    requires w.state.Signature? && |w.state.got| < 4 && w.phase != Complete
    ensures var got := w.state.got + [b];
            Consume(w, b) ==
            if |got| < 4 then Go(w.(state := Signature(got), offset := w.offset + 1), [], None)
            else LandedStep(DispatchSignature(w.(state := Signature([])), got), w.offset + 1)
  {
    hide DispatchSignature;
  }

  lemma ConsumeFixed(w: Walk, b: Byte)
    requires w.state.Fixed? && |w.state.fixed| < FixedLen(w.state.kind)
    ensures var kind, fixed := w.state.kind, w.state.fixed + [b];
            Consume(w, b) ==
            if |fixed| < FixedLen(kind) then Go(w.(state := Fixed(kind, fixed), offset := w.offset + 1), [], None)
            else LandedStep(DispatchFixed(w.(state := Signature([])), kind, fixed), w.offset + 1)
  {
    hide DispatchFixed;
  }

  lemma ConsumeVariable(w: Walk, b: Byte)
    requires w.state.VariablePart? && ValidState(w.state)
    ensures var part, total, v := w.state.part, w.state.total, w.state.variable + [b];
            Consume(w, b) ==
            if |v| < total then Go(w.(state := VariablePart(part, total, v), offset := w.offset + 1), [], None)
            else LandedStep(DispatchVariable(w.(state := Signature([])), part, v), w.offset + 1)
  {
    hide DispatchVariable;
  }

  function LandedStep(step: Step, offset: nat): Step {
    match step
    case Go(next, events, large) => Go(next.(offset := offset), events, large)
    case Stop(f) => Stop(f)
  }

  lemma SignatureRun(w: Walk, sig: seq<Byte>)
    requires w.state == Signature([]) && w.phase != Complete && |sig| == 4
    ensures Run(w, sig) == Landed(DispatchSignature(w.(offset := w.offset + 3), sig), w.offset + 4)
  {
    hide DispatchSignature, Run, Consume;
    assert sig[..0] == [] && sig[..1] == [] + [sig[0]] && sig[..2] == sig[..1] + [sig[1]]
           && sig[..3] == sig[..2] + [sig[2]] && sig[..4] == sig[..3] + [sig[3]] && sig == sig[..4];
    RunNothing(w);
    SignatureByte(w, sig, 0);
    SignatureByte(w, sig, 1);
    SignatureByte(w, sig, 2);
    var x := w.(state := Signature(sig[..3]), offset := w.offset + 3);
    RunStepQuiet(w, sig, 3, x);
    ConsumeSignature(x, sig[3]);
  }

  lemma SignatureByte(w: Walk, sig: seq<Byte>, k: nat)
    requires w.state == Signature([]) && w.phase != Complete && |sig| == 4 && k < 3
    requires Run(w, sig[..k]) == Some(Ran(w.(state := Signature(sig[..k]), offset := w.offset + k), []))
    ensures Run(w, sig[..k + 1]) == Some(Ran(w.(state := Signature(sig[..k + 1]), offset := w.offset + k + 1), []))
  {
    hide Run, Consume;
    var x := w.(state := Signature(sig[..k]), offset := w.offset + k);
    assert sig[..k] + [sig[k]] == sig[..k + 1];
    RunStepQuiet(w, sig, k, x);
    ConsumeSignature(x, sig[k]);
  }

  lemma {:induction false} FixedCollects(w: Walk, kind: Record, fixed: seq<Byte>, k: nat)
    requires w.state == Fixed(kind, []) && k < FixedLen(kind) && k <= |fixed|
    ensures Run(w, fixed[..k]) == Some(Ran(w.(state := Fixed(kind, fixed[..k]), offset := w.offset + k), []))
  {
    hide Run, Consume, FixedLen;
    if k == 0 {
      assert fixed[..0] == [];
      RunNothing(w);
    } else {
      FixedCollects(w, kind, fixed, k - 1);
      var x := w.(state := Fixed(kind, fixed[..k - 1]), offset := w.offset + k - 1);
      RunStepQuiet(w, fixed, k - 1, x);
      ConsumeFixed(x, fixed[k - 1]);
      assert fixed[..k - 1] + [fixed[k - 1]] == fixed[..k];
    }
  }

  lemma FixedRun(w: Walk, kind: Record, fixed: seq<Byte>)
    requires w.state == Fixed(kind, []) && |fixed| == FixedLen(kind)
    ensures Run(w, fixed) ==
            Landed(DispatchFixed(w.(state := Signature([]), offset := w.offset + |fixed| - 1), kind, fixed), w.offset + |fixed|)
  {
    hide Run, Consume, FixedLen, DispatchFixed;
    var last := |fixed| - 1;
    FixedCollects(w, kind, fixed, last);
    var x := w.(state := Fixed(kind, fixed[..last]), offset := w.offset + last);
    RunStepQuiet(w, fixed, last, x);
    ConsumeFixed(x, fixed[last]);
    assert fixed[..last] + [fixed[last]] == fixed == fixed[..last + 1];
  }

  lemma {:induction false} VariableCollects(w: Walk, part: Variable, v: seq<Byte>, k: nat)
    requires w.state == VariablePart(part, VariableLen(part), []) && k < VariableLen(part) && k <= |v|
    ensures Run(w, v[..k]) == Some(Ran(w.(state := VariablePart(part, VariableLen(part), v[..k]), offset := w.offset + k), []))
  {
    hide Run, Consume, VariableLen;
    if k == 0 {
      assert v[..0] == [];
      RunNothing(w);
    } else {
      VariableCollects(w, part, v, k - 1);
      var x := w.(state := VariablePart(part, VariableLen(part), v[..k - 1]), offset := w.offset + k - 1);
      RunStepQuiet(w, v, k - 1, x);
      ConsumeVariable(x, v[k - 1]);
      assert v[..k - 1] + [v[k - 1]] == v[..k];
    }
  }

  lemma VariableRun(w: Walk, part: Variable, v: seq<Byte>)
    requires w.state == VariablePart(part, VariableLen(part), []) && |v| == VariableLen(part) && v != []
    ensures Run(w, v) ==
            Landed(DispatchVariable(w.(state := Signature([]), offset := w.offset + |v| - 1), part, v), w.offset + |v|)
  {
    hide Run, Consume, VariableLen, DispatchVariable;
    var last := |v| - 1;
    VariableCollects(w, part, v, last);
    var x := w.(state := VariablePart(part, VariableLen(part), v[..last]), offset := w.offset + last);
    RunStepQuiet(w, v, last, x);
    ConsumeVariable(x, v[last]);
    assert v[..last] + [v[last]] == v == v[..last + 1];
  }

  /** More bytes after a run. */
  function Then(r: Option<Ran>, s: seq<Byte>): Option<Ran>
    requires r.Some? ==> ValidState(r.value.next.state)
  {
    match r
    case None => None
    case Some(a) =>
      match Run(a.next, s)
      case None => None
      case Some(b) => Some(Ran(b.next, a.events + b.events))
  }

  lemma RunThen(w: Walk, x: seq<Byte>, y: seq<Byte>)
    requires ValidState(w.state)
    ensures Run(w, x + y) == Then(Run(w, x), y)
  {
    hide Run;
    RunAppend(w, x, y);
  }

  /** A run that reports nothing, then another. */
  lemma ThenQuiet(w: Walk, x: seq<Byte>, y: seq<Byte>, mid: Walk)
    requires ValidState(w.state) && Run(w, x) == Some(Ran(mid, []))
    ensures Run(w, x + y) == Run(mid, y)
  {
    hide Run;
    RunAppend(w, x, y);
    if Run(mid, y).Some? {
      assert [] + Run(mid, y).value.events == Run(mid, y).value.events;
    }
  }

  /** A run, then one that reports nothing. */
  lemma ThenSilent(w: Walk, x: seq<Byte>, y: seq<Byte>, mid: Walk, events: seq<Event>, last: Walk)
    requires ValidState(w.state) && ValidState(mid.state)
    requires Run(w, x) == Some(Ran(mid, events)) && Run(mid, y) == Some(Ran(last, []))
    ensures Run(w, x + y) == Some(Ran(last, events))
  {
    hide Run;
    RunAppend(w, x, y);
    assert events + [] == events;
  }

  // A member.

  lemma LocalSignature(w: Walk)
    requires w.state == Signature([]) && w.phase == Members
    ensures Run(w, LOCAL_HEADER) == Some(Ran(w.(state := Fixed(RLocal, []), offset := w.offset + 4), []))
  {
    hide Run;
    SignatureRun(w, LOCAL_HEADER);
  }

  lemma EnterMemberOffset(w: Walk, a: nat, b: nat, offset: nat, h: LocalHeader, name: seq<Byte>, extra: seq<Byte>)
    ensures Landed(EnterMember(w.(offset := a), h, name, extra), offset) == Landed(EnterMember(w.(offset := b), h, name, extra), offset)
  {
    hide LocalSizes, Check;
  }

  /** The fixed part of a local header, once its signature is in. */
  lemma LocalFixedRun(w: Walk, h: LocalHeader, fixed: seq<Byte>)
    requires w.state == Fixed(RLocal, []) && |fixed| == LOCAL_FIXED && ParseLocal(fixed) == h
    ensures var part, total := LocalPart(h), h.nameLen + h.extraLen;
            var counted := w.(localCount := w.localCount + 1, offset := w.offset + LOCAL_FIXED);
            Run(w, fixed) ==
            if total == 0 then Landed(EnterMember(counted.(state := Signature([])), h, [], []), counted.offset)
            else Some(Ran(counted.(state := VariablePart(part, total, [])), []))
  {
    hide Run, EnterMember, ParseLocal;
    FixedRun(w, RLocal, fixed);
    if h.nameLen + h.extraLen == 0 {
      EnterMemberOffset(w.(state := Signature([]), localCount := w.localCount + 1), w.offset + 25, w.offset + 26, w.offset + 26, h, [], []);
      var none: seq<Byte> := [];
      assert none[..h.nameLen] == [] && none[h.nameLen..] == [];
    }
  }

  /** The rest of a local header, once its signature is in. */
  lemma LocalRest(w: Walk, h: LocalHeader, fixed: seq<Byte>, name: seq<Byte>, extra: seq<Byte>)
    requires w.state == Fixed(RLocal, [])
    requires |fixed| == LOCAL_FIXED && ParseLocal(fixed) == h && h.nameLen == |name| && h.extraLen == |extra|
    ensures Run(w, fixed + (name + extra)) ==
            Landed(EnterMember(w.(state := Signature([]), localCount := w.localCount + 1), h, name, extra), w.offset + 26 + |name + extra|)
  {
    hide Run, EnterMember, ParseLocal, Landed;
    var v := name + extra;
    LocalFixedRun(w, h, fixed);
    var counted := w.(state := Signature([]), localCount := w.localCount + 1);
    if v == [] {
      assert fixed + v == fixed && name == [] && extra == [];
      EnterMemberOffset(counted, w.offset + 26, w.offset, w.offset + 26, h, name, extra);
    } else {
      var w2 := counted.(state := VariablePart(LocalPart(h), |v|, []), offset := w.offset + 26);
      ThenQuiet(w, fixed, v, w2);
      LocalVariableRun(w2, h, name, extra);
      EnterMemberOffset(counted, w.offset + 25 + |v|, w.offset, w.offset + 26 + |v|, h, name, extra);
    }
  }

  lemma LocalRestFrom(w: Walk, h: LocalHeader, fixed: seq<Byte>, name: seq<Byte>, extra: seq<Byte>)
    requires w.state == Signature([])
    requires |fixed| == LOCAL_FIXED && ParseLocal(fixed) == h && h.nameLen == |name| && h.extraLen == |extra|
    ensures Run(w.(state := Fixed(RLocal, []), offset := w.offset + 4), fixed + (name + extra)) ==
            Landed(EnterMember(w.(localCount := w.localCount + 1), h, name, extra), w.offset + 30 + |name + extra|)
  {
    hide Run, EnterMember, ParseLocal, Landed;
    LocalRest(w.(state := Fixed(RLocal, []), offset := w.offset + 4), h, fixed, name, extra);
    EnterMemberOffset(w.(localCount := w.localCount + 1), w.offset + 4, w.offset, w.offset + 30 + |name + extra|, h, name, extra);
  }

  /** A whole local header opens its member. */
  lemma LocalRun(w: Walk, h: LocalHeader, fixed: seq<Byte>, name: seq<Byte>, extra: seq<Byte>)
    requires w.state == Signature([]) && w.phase == Members
    requires |fixed| == LOCAL_FIXED && ParseLocal(fixed) == h && h.nameLen == |name| && h.extraLen == |extra|
    ensures Run(w, LOCAL_HEADER + fixed + (name + extra)) ==
            Landed(EnterMember(w.(localCount := w.localCount + 1), h, name, extra), w.offset + 30 + |name + extra|)
  {
    hide Run, EnterMember, ParseLocal, Landed;
    LocalSignature(w);
    LocalRestFrom(w, h, fixed, name, extra);
    AfterSignature(w, LOCAL_HEADER, fixed, name + extra, w.(state := Fixed(RLocal, []), offset := w.offset + 4),
                   Landed(EnterMember(w.(localCount := w.localCount + 1), h, name, extra), w.offset + 30 + |name + extra|));
  }

  /** A record whose signature reports nothing. */
  lemma AfterSignature(w: Walk, sig: seq<Byte>, fixed: seq<Byte>, v: seq<Byte>, w1: Walk, r: Option<Ran>)
    requires ValidState(w.state) && Run(w, sig) == Some(Ran(w1, [])) && Run(w1, fixed + v) == r
    ensures Run(w, sig + fixed + v) == r
  {
    hide Run;
    Assoc(sig, fixed, v);
    ThenQuiet(w, sig, fixed + v, w1);
  }

  lemma LocalVariableRun(w: Walk, h: LocalHeader, name: seq<Byte>, extra: seq<Byte>)
    requires h.nameLen == |name| && h.extraLen == |extra| && name + extra != []
    requires w.state == VariablePart(LocalPart(h), |name + extra|, [])
    ensures var v := name + extra;
            Run(w, v) == Landed(EnterMember(w.(state := Signature([]), offset := w.offset + |v| - 1), h, name, extra), w.offset + |v|)
  {
    hide Run, EnterMember;
    var v := name + extra;
    assert v[..h.nameLen] == name && v[h.nameLen..] == extra;
    VariableRun(w, LocalPart(h), v);
  }

  lemma {:induction false} DataCounts(w: Walk, data: seq<Byte>, uncompressed: nat, crc: nat, codec: nat, descriptor: Option<bool>, k: nat)
    requires data != [] && w.state == Data(|data|, |data|, uncompressed, crc, codec, descriptor) && k < |data|
    ensures Run(w, data[..k]) ==
            Some(Ran(w.(state := Data(|data| - k, |data|, uncompressed, crc, codec, descriptor), offset := w.offset + k),
                     DataEvents(data[..k])))
  {
    hide Run, DataEvents;
    if k == 0 {
      assert data[..0] == [];
      RunNothing(w);
      DataNothing();
    } else {
      DataCounts(w, data, uncompressed, crc, codec, descriptor, k - 1);
      RunStep(w, data, k - 1);
      DataOne(data, k - 1);
    }
  }

  lemma DataOne(t: seq<Byte>, k: nat)
    requires k < |t|
    ensures DataEvents(t[..k]) + [MemberData(t[k])] == DataEvents(t[..k + 1])
  {
  }

  /** Stored data of known size is reported byte by byte, and then the member's end. */
  lemma DataRun(w: Walk, data: seq<Byte>, uncompressed: nat, crc: nat, codec: nat)
    requires data != [] && w.state == Data(|data|, |data|, uncompressed, crc, codec, None)
    ensures Run(w, data) ==
            Some(Ran(w.(state := Signature([]), offset := w.offset + |data|),
                     DataEvents(data) + [MemberEnd(MemberSizes(|data|, uncompressed), crc)]))
  {
    hide Run, DataEvents, Consume;
    var last := |data| - 1;
    DataCounts(w, data, uncompressed, crc, codec, None, last);
    RunStep(w, data, last);
    LastByte(w.(state := Data(1, |data|, uncompressed, crc, codec, None), offset := w.offset + last), data[last]);
    DataOne(data, last);
    assert data[..last + 1] == data;
    var before, end := DataEvents(data[..last]), MemberEnd(MemberSizes(|data|, uncompressed), crc);
    assert before + [MemberData(data[last]), end] == before + [MemberData(data[last])] + [end];
  }

  /** The last byte of a member of known size ends it, or comes before its descriptor. */
  lemma LastByte(w: Walk, b: Byte)
    requires w.state.Data? && w.state.remaining == 1
    ensures var d := w.state;
            Consume(w, b) ==
            match d.descriptor
            case Some(zip64) => Go(w.(state := Descriptor(zip64, d.declared, d.codec, []), offset := w.offset + 1), [MemberData(b)], None)
            case None =>
              Go(w.(state := Signature([]), offset := w.offset + 1),
                 [MemberData(b), MemberEnd(MemberSizes(d.declared, d.uncompressed), d.crc)], None)
  {
  }

  /** What the fields of a member's records hold. */
  predicate Fits(m: Member) {
    |m.name| <= MAX16 && m.crc <= MAX32 && |m.data| <= if m.descriptor then MAX32 else MAX64
  }

  /** A member's data and the descriptor after it: what the scan of an unknown-size member sees. */
  function Scanned(m: Member): seq<Byte> {
    m.data + DescriptorBytes(m.crc, |m.data|)
  }

  /** No descriptor inside the data (or running into the real one) claims exactly the bytes before it. */
  predicate NoEarlyDescriptor(m: Member) {
    forall q :: 0 <= q < |m.data| ==> !DescriptorAt(false, Scanned(m), q)
  }

  predicate Framed(m: Member) {
    Fits(m) && (m.descriptor ==> NoEarlyDescriptor(m))
  }

  function HeaderEvent(m: Member): Event {
    LocalHeaderRead(m.name, METHOD_STORED, m.utf8, false,
                    if m.descriptor then None else Some(MemberSizes(|m.data|, |m.data|)), if m.descriptor then 0 else m.crc)
  }

  /** What the walker reports of a member: its header, its bytes, its end. */
  function MemberEvents(m: Member): seq<Event> {
    [HeaderEvent(m)] + (DataEvents(m.data) + [MemberEnd(MemberSizes(|m.data|, |m.data|), m.crc)])
  }

  /** Where the header of an unknown-size member leaves the walker. */
  function Scanning(w: Walk, m: Member): Walk {
    w.(localCount := w.localCount + 1, offset := w.offset + 30 + |m.name|, state := DataScan(0, METHOD_STORED, false, []))
  }

  lemma UnknownHeaderRun(w: Walk, m: Member)
    requires w.state == Signature([]) && w.phase == Members && Fits(m) && m.descriptor
    ensures Run(w, LocalHeaderBytes(m)) == Some(Ran(Scanning(w, m), [HeaderEvent(m)]))
  {
    hide Run, ParseLocal, LocalFixed;
    var flags := FLAG_DESCRIPTOR + Utf8Flag(m.utf8);
    var fixed := LocalFixed(VERSION_PLAIN, flags, 0, 0, |m.name|, 0);
    FlagsRead(m.utf8);
    ReadsLocal(VERSION_PLAIN, flags, 0, 0, |m.name|, 0);
    var h := ParseLocal(fixed);
    assert m.name + [] == m.name;
    LocalRun(w, h, fixed, m.name, []);
  }

  lemma UnknownMemberRun(w: Walk, m: Member)
    requires w.state == Signature([]) && w.phase == Members && Framed(m) && m.descriptor
    ensures Run(w, LocalBytes(m)) ==
            Some(Ran(w.(offset := w.offset + |LocalBytes(m)|, localCount := w.localCount + 1), MemberEvents(m)))
  {
    hide Run, DescriptorBody, BodySizes, BodyCrc, DataEvents, LocalFixed;
    var t, p := Scanned(m), |m.data|;
    UnknownHeaderRun(w, m);
    RunThen(w, LocalHeaderBytes(m), t);
    ReadsDescriptor(m.crc, p);
    assert t[p..p + 4] == DATA_DESCRIPTOR && t[p + 4..p + 16] == DescriptorBody(m.crc, p);
    ScanEndsAtLeast(Scanning(w, m), METHOD_STORED, false, t, p);
    assert t[..p] == m.data && t[..p + 16] == t;
  }

  /** The header of a member of known size enters its data, if it has any. */
  lemma KnownHeaderRun(w: Walk, m: Member)
    requires w.state == Signature([]) && w.phase == Members && Fits(m) && !m.descriptor
    ensures var header := LocalHeaderKnown(m.name, m.utf8, m.crc, |m.data|);
            var w1 := w.(localCount := w.localCount + 1, offset := w.offset + |header|);
            Run(w, header) ==
            if m.data == [] then Some(Ran(w1, [HeaderEvent(m), MemberEnd(MemberSizes(0, 0), m.crc)]))
            else Some(Ran(w1.(state := Data(|m.data|, |m.data|, |m.data|, m.crc, METHOD_STORED, None)), [HeaderEvent(m)]))
  {
    hide Run, ParseLocal, LocalFixed, LocalSizes, LocalExtra;
    var len := |m.data|;
    var zip64 := NeedsZip64Len(len);
    var flags := Utf8Flag(m.utf8);
    var version, size, extraLen := if zip64 then VERSION_ZIP64 else VERSION_PLAIN, if zip64 then MAX32 else len, if zip64 then 20 else 0;
    var fixed := LocalFixed(version, flags, m.crc, size, |m.name|, extraLen);
    FlagsRead(m.utf8);
    ReadsLocal(version, flags, m.crc, size, |m.name|, extraLen);
    var h := ParseLocal(fixed);
    LocalExtraLen(len);
    ReadsLocalSizes(h, len);
    LocalRun(w, h, fixed, m.name, LocalExtra(len));
  }

  lemma KnownMemberRun(w: Walk, m: Member)
    requires w.state == Signature([]) && w.phase == Members && Framed(m) && !m.descriptor
    ensures Run(w, LocalBytes(m)) ==
            Some(Ran(w.(offset := w.offset + |LocalBytes(m)|, localCount := w.localCount + 1), MemberEvents(m)))
  {
    hide Run, LocalHeaderKnown, DataEvents;
    var len, header := |m.data|, LocalHeaderKnown(m.name, m.utf8, m.crc, |m.data|);
    KnownHeaderRun(w, m);
    assert m.data + [] == m.data;
    if m.data == [] {
      assert header + (m.data + []) == header;
      DataNothing();
      assert MemberEvents(m) == [HeaderEvent(m), MemberEnd(MemberSizes(0, 0), m.crc)];
    } else {
      RunThen(w, header, m.data);
      var w1 := w.(localCount := w.localCount + 1, offset := w.offset + |header|,
                   state := Data(len, len, len, m.crc, METHOD_STORED, None));
      DataRun(w1, m.data, len, m.crc, METHOD_STORED);
    }
  }

  lemma LocalExtraLen(len: nat)
    ensures |LocalExtra(len)| == if NeedsZip64Len(len) then 20 else 0
  {
  }

  lemma MemberRun(w: Walk, m: Member)
    requires w.state == Signature([]) && w.phase == Members && Framed(m)
    ensures Run(w, LocalBytes(m)) ==
            Some(Ran(w.(offset := w.offset + |LocalBytes(m)|, localCount := w.localCount + 1), MemberEvents(m)))
  {
    if m.descriptor {
      UnknownMemberRun(w, m);
    } else {
      KnownMemberRun(w, m);
    }
  }

  function ArchiveEvents(ms: seq<Member>): seq<Event> {
    if ms == [] then [] else ArchiveEvents(ms[..|ms| - 1]) + MemberEvents(ms[|ms| - 1])
  }

  lemma {:induction false} LocalsRun(ms: seq<Member>)
    requires forall i :: 0 <= i < |ms| ==> Framed(ms[i])
    ensures Run(START, Locals(ms)) == Some(Ran(START.(offset := |Locals(ms)|, localCount := |ms|), ArchiveEvents(ms)))
  {
    hide Run, MemberEvents, LocalBytes, Framed;
    if ms == [] {
      RunNothing(START);
    } else {
      var front, m := ms[..|ms| - 1], ms[|ms| - 1];
      LocalsRun(front);
      RunThen(START, Locals(front), LocalBytes(m));
      MemberRun(START.(offset := |Locals(front)|, localCount := |front|), m);
    }
  }

  // The central directory.

  /** The fixed part of a central entry, once its signature is in. */
  lemma CentralFixedRun(w: Walk, h: CentralHeader, fixed: seq<Byte>)
    requires w.state == Fixed(RCentral, []) && |fixed| == CENTRAL_FIXED && ParseCentral(fixed) == h
    ensures var part, total := CentralPart(h), h.nameLen + h.extraLen + h.commentLen;
            var counted := w.(centralCount := w.centralCount + 1, offset := w.offset + CENTRAL_FIXED);
            Run(w, fixed) ==
            if total == 0 then Landed(DispatchVariable(counted.(state := Signature([]), offset := counted.offset - 1), part, []), counted.offset)
            else Some(Ran(counted.(state := VariablePart(part, total, [])), []))
  {
    hide Run, DispatchVariable, ParseCentral;
    FixedRun(w, RCentral, fixed);
  }

  /** The entry's name and extra part: its facts check out, and the walker moves on. */
  lemma CentralAccepts(w: Walk, e: CentralEntry)
    requires Recordable(e) && w.centralStart.Some? && e.offset < w.centralStart.value
    ensures var h := ParseCentral(CentralFixed(e));
            var v := e.name + CentralExtra(e);
            && VariableLen(CentralPart(h)) == |v|
            && DispatchVariable(w, CentralPart(h), v) == Go(w.(state := Signature([])), [], None)
  {
    hide ParseCentral, CentralFixed, CentralExtra, CentralFacts;
    ReadsCentral(e);
    ReadsCentralFacts(e);
    var h := ParseCentral(CentralFixed(e));
    var v := e.name + CentralExtra(e);
    assert v[h.nameLen..h.nameLen + h.extraLen] == CentralExtra(e);
  }

  /** A central entry, once its signature is in. */
  lemma EntryRest(w: Walk, e: CentralEntry)
    requires w.state == Fixed(RCentral, []) && Recordable(e) && w.centralStart.Some? && e.offset < w.centralStart.value
    ensures var n := |CentralFixed(e) + (e.name + CentralExtra(e))|;
            Run(w, CentralFixed(e) + (e.name + CentralExtra(e))) ==
            Some(Ran(w.(state := Signature([]), centralCount := w.centralCount + 1, offset := w.offset + n), []))
  {
    hide Run, ParseCentral, CentralFixed, CentralExtra, DispatchVariable;
    var h := ParseCentral(CentralFixed(e));
    var v := e.name + CentralExtra(e);
    CentralFixedRun(w, h, CentralFixed(e));
    var counted := w.(state := Signature([]), centralCount := w.centralCount + 1);
    CentralAccepts(counted.(offset := w.offset + CENTRAL_FIXED + |v| - 1), e);
    if v == [] {
      assert CentralFixed(e) + v == CentralFixed(e);
    } else {
      var w2 := counted.(state := VariablePart(CentralPart(h), |v|, []), offset := w.offset + CENTRAL_FIXED);
      ThenQuiet(w, CentralFixed(e), v, w2);
      VariableRun(w2, CentralPart(h), v);
    }
  }

  /** Where the walker is once the first `k` entries of a directory starting at `start` are in. */
  function InDirectory(w: Walk, es: seq<CentralEntry>, k: nat): Walk
    requires k <= |es|
  {
    if k == 0 then w
    else w.(phase := Central, centralStart := Some(w.offset), centralCount := k, offset := w.offset + |Directory(es[..k])|)
  }

  lemma CentralSignature(w: Walk)
    requires w.state == Signature([]) && (w.phase == Members || w.phase == Central)
    ensures Run(w, CENTRAL_HEADER) ==
            if w.phase == Members
            then Some(Ran(w.(state := Fixed(RCentral, []), phase := Central, centralStart := Some(w.offset), offset := w.offset + 4), [CentralBegun]))
            else Some(Ran(w.(state := Fixed(RCentral, []), offset := w.offset + 4), []))
  {
    hide Run;
    SignatureRun(w, CENTRAL_HEADER);
  }

  lemma EntryRun(w: Walk, e: CentralEntry)
    requires w.state == Signature([]) && Recordable(e)
    requires w.phase == Central && w.centralStart.Some? && e.offset < w.centralStart.value
    ensures Run(w, CentralHeaderBytes(e)) ==
            Some(Ran(w.(centralCount := w.centralCount + 1, offset := w.offset + |CentralHeaderBytes(e)|), []))
  {
    hide Run, CentralFixed, CentralExtra;
    CentralSignature(w);
    var w1 := w.(state := Fixed(RCentral, []), offset := w.offset + 4);
    EntryRest(w1, e);
    var rest := CentralFixed(e) + (e.name + CentralExtra(e));
    AfterSignature(w, CENTRAL_HEADER, CentralFixed(e), e.name + CentralExtra(e), w1, Run(w1, rest));
  }

  lemma FirstEntryRun(w: Walk, e: CentralEntry)
    requires w.state == Signature([]) && Recordable(e) && w.phase == Members && e.offset < w.offset
    ensures Run(w, CentralHeaderBytes(e)) ==
            Some(Ran(w.(phase := Central, centralStart := Some(w.offset), centralCount := w.centralCount + 1,
                        offset := w.offset + |CentralHeaderBytes(e)|), [CentralBegun]))
  {
    hide Run, CentralFixed, CentralExtra;
    CentralSignature(w);
    var w1 := w.(state := Fixed(RCentral, []), phase := Central, centralStart := Some(w.offset), offset := w.offset + 4);
    EntryRest(w1, e);
    var rest := CentralFixed(e) + (e.name + CentralExtra(e));
    Assoc(CENTRAL_HEADER, CentralFixed(e), e.name + CentralExtra(e));
    ThenSilent(w, CENTRAL_HEADER, rest, w1, [CentralBegun],
               w1.(state := Signature([]), centralCount := w.centralCount + 1, offset := w.offset + 4 + |rest|));
  }

  lemma {:induction false} DirectoryRun(w: Walk, es: seq<CentralEntry>, k: nat)
    requires w.state == Signature([]) && w.phase == Members && w.centralCount == 0 && k <= |es|
    requires forall i :: 0 <= i < |es| ==> Recordable(es[i]) && es[i].offset < w.offset
    ensures Run(w, Directory(es[..k])) == Some(Ran(InDirectory(w, es, k), if k == 0 then [] else [CentralBegun]))
  {
    hide Run, CentralHeaderBytes, Recordable;
    if k == 0 {
      RunNothing(w);
    } else {
      var e := es[k - 1];
      assert es[..k][..k - 1] == es[..k - 1];
      if k == 1 {
        FirstEntryRun(w, e);
        assert Directory(es[..0]) == [] && Directory(es[..1]) == [] + CentralHeaderBytes(e) == CentralHeaderBytes(e);
      } else {
        DirectoryRun(w, es, k - 1);
        EntryRun(InDirectory(w, es, k - 1), e);
        ThenSilent(w, Directory(es[..k - 1]), CentralHeaderBytes(e), InDirectory(w, es, k - 1), [CentralBegun], InDirectory(w, es, k));
      }
    }
  }

  // The end records.

  /** At the end of a directory that began at `start` and holds `count` entries. */
  predicate AtEnd(w: Walk, count: nat, start: nat) {
    && w.state == Signature([]) && w.localCount == w.centralCount == count && w.zip64End == None
    && start <= w.offset
    && (   (w.phase == Central && w.centralStart == Some(start))
        || (w.phase == Members && w.centralStart == None && start == w.offset && count == 0))
  }

  function EndEvents(w: Walk): seq<Event> {
    if w.phase == Members then [CentralBegun] else []
  }

  lemma EndSignature(w: Walk, count: nat, start: nat)
    requires AtEnd(w, count, start)
    ensures Run(w, END_OF_CENTRAL_DIRECTORY) ==
            Some(Ran(w.(state := Fixed(REnd, []), centralStart := Some(start), centralEnd := w.offset, offset := w.offset + 4), EndEvents(w)))
  {
    hide Run;
    SignatureRun(w, END_OF_CENTRAL_DIRECTORY);
  }

  lemma Zip64EndSignature(w: Walk, count: nat, start: nat)
    requires AtEnd(w, count, start)
    ensures Run(w, ZIP64_END_OF_CENTRAL_DIRECTORY) ==
            Some(Ran(w.(state := Fixed(RZip64End, []), phase := Zip64EndSeen, centralStart := Some(start), centralEnd := w.offset,
                        offset := w.offset + 4), EndEvents(w)))
  {
    hide Run;
    SignatureRun(w, ZIP64_END_OF_CENTRAL_DIRECTORY);
  }

  lemma LocatorRun(w: Walk, zip64EndOffset: nat)
    requires w.state == Signature([]) && w.phase == Zip64EndSeen
    ensures Run(w, ZIP64_LOCATOR + LocatorFixedBytes(zip64EndOffset)) == Some(Ran(w.(phase := LocatorSeen, offset := w.offset + 20), []))
  {
    hide Run, LocatorFixedBytes;
    SignatureRun(w, ZIP64_LOCATOR);
    var w1 := w.(state := Fixed(RZip64Locator, []), phase := LocatorSeen, offset := w.offset + 4);
    ThenQuiet(w, ZIP64_LOCATOR, LocatorFixedBytes(zip64EndOffset), w1);
    FixedRun(w1, RZip64Locator, LocatorFixedBytes(zip64EndOffset));
  }

  /** The end record's fixed part, reconciled with what streamed past. */
  lemma EndFixedRun(w: Walk, fixed: seq<Byte>)
    requires w.state == Fixed(REnd, []) && |fixed| == END_FIXED && ParseEnd(fixed).commentLen == 0
    requires ReconcileEnd(w, ParseEnd(fixed)).None?
    ensures Run(w, fixed) == Some(Ran(w.(state := Signature([]), phase := Complete, offset := w.offset + END_FIXED), []))
  {
    hide Run, ParseEnd;
    FixedRun(w, REnd, fixed);
  }

  lemma PlainEndRun(w: Walk, count: nat, start: nat)
    requires AtEnd(w, count, start) && count < MAX16 && w.offset - start < MAX32 && start < MAX32
    ensures var size := w.offset - start;
            Run(w, EndBytes(false, count, size, start)) ==
            Some(Ran(w.(phase := Complete, centralStart := Some(start), centralEnd := w.offset, offset := w.offset + 22), EndEvents(w)))
  {
    hide Run, EndFixedBytes, ParseEnd;
    var size := w.offset - start;
    var fixed := EndFixedBytes(count, size, start);
    EndSignature(w, count, start);
    ReadsEnd(count, size, start);
    var w1 := w.(state := Fixed(REnd, []), centralStart := Some(start), centralEnd := w.offset, offset := w.offset + 4);
    EndFixedRun(w1, fixed);
    ThenSilent(w, END_OF_CENTRAL_DIRECTORY, fixed, w1, EndEvents(w),
               w1.(state := Signature([]), phase := Complete, offset := w.offset + 22));
  }

  lemma Zip64EndRun(w: Walk, count: nat, start: nat)
    requires AtEnd(w, count, start) && count <= MAX64 && w.offset - start <= MAX64 && start <= MAX64
    ensures var size := w.offset - start;
            Run(w, ZIP64_END_OF_CENTRAL_DIRECTORY + Zip64EndFixedBytes(count, size, start)) ==
            Some(Ran(w.(phase := Zip64EndSeen, centralStart := Some(start), centralEnd := w.offset,
                        zip64End := Some(Zip64EndRecord(count, size, start, 0)), offset := w.offset + 56), EndEvents(w)))
  {
    hide Run, Zip64EndFixedBytes, ParseZip64End;
    var size := w.offset - start;
    var fixed := Zip64EndFixedBytes(count, size, start);
    Zip64EndSignature(w, count, start);
    ReadsZip64End(count, size, start);
    var w1 := w.(state := Fixed(RZip64End, []), phase := Zip64EndSeen, centralStart := Some(start), centralEnd := w.offset, offset := w.offset + 4);
    FixedRun(w1, RZip64End, fixed);
    ThenSilent(w, ZIP64_END_OF_CENTRAL_DIRECTORY, fixed, w1, EndEvents(w),
               w1.(state := Signature([]), zip64End := Some(Zip64EndRecord(count, size, start, 0)), offset := w.offset + 56));
  }

  /** After the ZIP64 records, the end record defers to them. */
  lemma DeferredEndRun(w: Walk, count: nat, size: nat, start: nat, any: nat, anySize: nat, anyOffset: nat)
    requires w.state == Signature([]) && w.phase == LocatorSeen && w.localCount == w.centralCount == count
    requires w.zip64End == Some(Zip64EndRecord(count, size, start, 0)) && w.centralStart == Some(start) && w.centralEnd == start + size
    ensures Run(w, EndBytes(true, any, anySize, anyOffset)) == Some(Ran(w.(phase := Complete, offset := w.offset + 22), []))
  {
    hide Run, EndFixedBytes, ParseEnd;
    var fixed := EndFixedBytes(MAX16, MAX32, MAX32);
    SignatureRun(w, END_OF_CENTRAL_DIRECTORY);
    var w1 := w.(state := Fixed(REnd, []), offset := w.offset + 4);
    ThenQuiet(w, END_OF_CENTRAL_DIRECTORY, fixed, w1);
    ReadsEnd(MAX16, MAX32, MAX32);
    EndFixedRun(w1, fixed);
  }

  lemma Zip64TailRun(w: Walk, count: nat, start: nat)
    requires AtEnd(w, count, start) && count <= MAX64 && w.offset <= MAX64
    ensures var size := w.offset - start;
            Run(w, Zip64Tail(count, size, start)) ==
            Some(Ran(w.(phase := LocatorSeen, centralStart := Some(start), centralEnd := w.offset,
                        zip64End := Some(Zip64EndRecord(count, size, start, 0)), offset := w.offset + 76), EndEvents(w)))
  {
    hide Run, Zip64EndFixedBytes, LocatorFixedBytes;
    var size := w.offset - start;
    Zip64EndRun(w, count, start);
    var w1 := w.(phase := Zip64EndSeen, centralStart := Some(start), centralEnd := w.offset,
                 zip64End := Some(Zip64EndRecord(count, size, start, 0)), offset := w.offset + 56);
    LocatorRun(w1, start + size);
    ThenSilent(w, ZIP64_END_OF_CENTRAL_DIRECTORY + Zip64EndFixedBytes(count, size, start), ZIP64_LOCATOR + LocatorFixedBytes(start + size),
               w1, EndEvents(w), w1.(phase := LocatorSeen, offset := w.offset + 76));
  }

  /** A run that ends well, reporting `events`. */
  predicate Closed(r: Option<Ran>, events: seq<Event>) {
    r.Some? && r.value.events == events && MayFinish(r.value.next)
  }

  /** The ZIP64 records and the end record that defers to them. */
  lemma Zip64Closes(w: Walk, count: nat, start: nat, size: nat)
    requires AtEnd(w, count, start) && count <= MAX64 && w.offset <= MAX64 && size == w.offset - start
    ensures Closed(Run(w, Zip64Tail(count, size, start) + EndBytes(true, count, size, start)), EndEvents(w))
  {
    hide Run, Zip64Tail, EndBytes, EndEvents;
    Zip64TailRun(w, count, start);
    var w2 := w.(phase := LocatorSeen, centralStart := Some(start), centralEnd := w.offset,
                 zip64End := Some(Zip64EndRecord(count, size, start, 0)), offset := w.offset + 76);
    DeferredEndRun(w2, count, size, start, count, size, start);
    ThenSilent(w, Zip64Tail(count, size, start), EndBytes(true, count, size, start), w2, EndEvents(w), w2.(phase := Complete, offset := w2.offset + 22));
  }

  lemma PlainCloses(w: Walk, count: nat, start: nat, size: nat)
    requires AtEnd(w, count, start) && count < MAX16 && size < MAX32 && start < MAX32 && size == w.offset - start
    ensures Closed(Run(w, [] + EndBytes(false, count, size, start)), EndEvents(w))
  {
    hide Run, EndBytes, EndEvents;
    PlainEndRun(w, count, start);
    var end := EndBytes(false, count, size, start);
    assert [] + end == end;
  }

  /** The tail after the directory: the end records close the archive. */
  lemma EndRecordsRun(w: Walk, zip64: bool, count: nat, start: nat, size: nat)
    requires AtEnd(w, count, start) && count <= MAX64 && w.offset <= MAX64 && size == w.offset - start
    requires !zip64 ==> count < MAX16 && size < MAX32 && start < MAX32
    ensures Closed(Run(w, (if zip64 then Zip64Tail(count, size, start) else []) + EndBytes(zip64, count, size, start)), EndEvents(w))
  {
    hide Run, Zip64Tail, EndBytes, EndEvents, Closed, AtEnd;
    if zip64 {
      Zip64Closes(w, count, start, size);
    } else {
      PlainCloses(w, count, start, size);
    }
  }

  /** The whole tail, after the members it describes. */
  lemma TailRun(w: Walk, es: seq<CentralEntry>)
    requires w.state == Signature([]) && w.phase == Members && w.centralCount == 0 && w.localCount == |es|
    requires w.centralStart == None && w.zip64End == None
    requires forall i :: 0 <= i < |es| ==> Recordable(es[i]) && es[i].offset < w.offset
    requires |es| <= MAX64 && w.offset + |Directory(es)| <= MAX64
    ensures var r := Run(w, Tail(es, w.offset));
            r.Some? && r.value.events == [CentralBegun] && MayFinish(r.value.next)
  {
    hide Run, Directory, Zip64Tail, EndBytes, Recordable, TailNeedsZip64, MayFinish;
    var size, start, zip64 := |Directory(es)|, w.offset, TailNeedsZip64(es, w.offset);
    assert es[..|es|] == es;
    DirectoryRun(w, es, |es|);
    DirectoryEmpty(es);
    if !zip64 {
      PlainFits(es, start);
    }
    var w1 := InDirectory(w, es, |es|);
    EndRecordsRun(w1, zip64, |es|, start, size);
    var records := if zip64 then Zip64Tail(|es|, size, start) else [];
    var end := EndBytes(zip64, |es|, size, start);
    Assoc(Directory(es), records, end);
    RunThen(w, Directory(es), records + end);
    assert [CentralBegun] + [] == [CentralBegun] == [] + [CentralBegun];
  }

  lemma DirectoryEmpty(es: seq<CentralEntry>)
    ensures es == [] ==> Directory(es) == []
  {
  }

  lemma PlainFits(es: seq<CentralEntry>, start: nat)
    requires !TailNeedsZip64(es, start)
    ensures |es| < MAX16 && |Directory(es)| < MAX32 && start < MAX32
  {
  }

  // Whole archives.

  lemma {:induction false} EntryAt(ms: seq<Member>, k: nat)
    requires k < |ms|
    ensures Entries(ms)[k] == EntryOf(ms[k], |Locals(ms[..k])|)
    ensures |Locals(ms[..k])| + 30 + |ms[k].data| <= |Locals(ms)|
  {
    hide LocalBytes, Locals;
    var front, m := ms[..|ms| - 1], ms[|ms| - 1];
    assert ms == front + [m];
    OneMore(front, m);
    LocalLen(m);
    if k < |front| {
      EntryAt(front, k);
      assert front[..k] == ms[..k];
    } else {
      assert ms[..k] == front;
    }
  }

  lemma EntryBytes(e: CentralEntry)
    ensures |CentralHeaderBytes(e)| <= 74 + |e.name|
  {
    hide CentralFixed;
  }

  lemma LocalLen(m: Member)
    ensures |LocalBytes(m)| >= 30 + |m.data|
  {
    hide LocalFixed, LocalExtra;
  }

  lemma {:induction false} LocalsLen(ms: seq<Member>)
    ensures |Locals(ms)| >= 30 * |ms|
  {
    hide LocalBytes;
    if ms != [] {
      LocalsLen(ms[..|ms| - 1]);
      LocalLen(ms[|ms| - 1]);
    }
  }

  lemma EntriesRecordable(ms: seq<Member>)
    requires (forall i :: 0 <= i < |ms| ==> Fits(ms[i])) && |Locals(ms)| <= MAX64
    ensures forall i :: 0 <= i < |ms| ==> Recordable(Entries(ms)[i]) && Entries(ms)[i].offset < |Locals(ms)|
  {
    hide Locals, Entries;
    forall i | 0 <= i < |ms| ensures Recordable(Entries(ms)[i]) && Entries(ms)[i].offset < |Locals(ms)| {
      EntryAt(ms, i);
    }
  }

  /** What the walker reports of a whole archive. */
  function WholeEvents(ms: seq<Member>): seq<Event> {
    ArchiveEvents(ms) + [CentralBegun]
  }

  /** The walk over `bytes` ends well, having reported exactly `events`. */
  predicate Reports(bytes: seq<Byte>, events: seq<Event>) {
    var r := Run(START, bytes);
    r.Some? && r.value.events == events && MayFinish(r.value.next)
  }

  /**
   * Walking the archive the writer prints for any members whose fields fit, none with an earlier
   * self-consistent descriptor inside its data, never faults, may finish, and reports the members in order.
   */
  lemma RoundTrip(ms: seq<Member>)
    requires (forall i :: 0 <= i < |ms| ==> Framed(ms[i])) && |Archive(ms)| <= MAX64
    ensures Reports(Archive(ms), WholeEvents(ms))
  {
    hide Run, Locals, Entries, Tail, Recordable, ArchiveEvents, MayFinish, Directory;
    LocalsRun(ms);
    EntriesRecordable(ms);
    LocalsLen(ms);
    ArchiveLen(ms);
    var w := START.(offset := |Locals(ms)|, localCount := |ms|);
    TailRun(w, Entries(ms));
    RunThen(START, Locals(ms), Tail(Entries(ms), |Locals(ms)|));
  }

  lemma ArchiveLen(ms: seq<Member>)
    ensures |Archive(ms)| >= |Locals(ms)| + |Directory(Entries(ms))|
  {
  }

  // When a member's data does hold an earlier descriptor.

  /** The least early descriptor. */
  lemma {:induction false} LeastEarly(m: Member, q: nat) returns (p: nat)
    requires q < |m.data| && DescriptorAt(false, Scanned(m), q)
    ensures p <= q && DescriptorAt(false, Scanned(m), p)
    ensures forall k :: 0 <= k < p ==> !DescriptorAt(false, Scanned(m), k)
    decreases q
  {
    if k: nat :| k < q && DescriptorAt(false, Scanned(m), k) {
      p := LeastEarly(m, k);
    } else {
      p := q;
    }
  }

  /** What the walker reports of a member it ends early, after `p` of its bytes. */
  function EarlyEvents(m: Member, p: nat, sizes: MemberSizes, crc: nat): seq<Event>
    requires p <= |m.data|
  {
    [HeaderEvent(m)] + (DataEvents(m.data[..p]) + [MemberEnd(sizes, crc)])
  }

  /** The walker takes an early descriptor for the member's own: it faults, or ends the member there. */
  lemma EarlyEnd(w: Walk, m: Member, p: nat) returns (sizes: MemberSizes, crc: nat)
    requires w.state == Signature([]) && w.phase == Members && Fits(m) && m.descriptor && p < |m.data|
    requires DescriptorAt(false, Scanned(m), p) && forall k :: 0 <= k < p ==> !DescriptorAt(false, Scanned(m), k)
    ensures var r := Run(w, LocalHeaderBytes(m) + Scanned(m)[..p + 16]);
            r.Some? ==> r.value.events == EarlyEvents(m, p, sizes, crc) && sizes.compressed == p && Check(sizes, METHOD_STORED).None?
  {
    hide Run, DescriptorBytes, LocalHeaderBytes, BodySizes, BodyCrc, Check, DataEvents;
    UnknownHeaderRun(w, m);
    RunThen(w, LocalHeaderBytes(m), Scanned(m)[..p + 16]);
    ScanEndsAtLeast(Scanning(w, m), METHOD_STORED, false, Scanned(m), p);
    var body := Scanned(m)[p + 4..p + 16];
    sizes, crc := BodySizes(false, body), BodyCrc(body);
    assert Scanned(m)[..p] == m.data[..p];
  }

  lemma PrefixReports(w: Walk, x: seq<Byte>, y: seq<Byte>)
    requires ValidState(w.state) && Run(w, x + y).Some?
    ensures Run(w, x).Some? && Run(w, x).value.events <= Run(w, x + y).value.events
  {
    hide Run;
    RunThen(w, x, y);
  }

  lemma {:induction false} ArchiveEventsPrefix(ms: seq<Member>, k: nat)
    requires k < |ms|
    ensures ArchiveEvents(ms[..k]) + MemberEvents(ms[k]) <= ArchiveEvents(ms)
  {
    hide MemberEvents;
    var front := ms[..|ms| - 1];
    if k < |front| {
      ArchiveEventsPrefix(front, k);
      assert front[..k] == ms[..k];
    } else {
      assert ms[..k] == front;
    }
  }

  lemma {:induction false} LocalsPrefix(ms: seq<Member>, k: nat)
    requires k < |ms|
    ensures Locals(ms[..k]) + LocalBytes(ms[k]) <= Locals(ms)
  {
    hide LocalBytes;
    var front := ms[..|ms| - 1];
    if k < |front| {
      LocalsPrefix(front, k);
      assert front[..k] == ms[..k];
    } else {
      assert ms[..k] == front;
    }
  }

  /** Whatever follows, a walk reports a member with an early descriptor, after members without, cut short there. */
  lemma EarlyInside(front: seq<Member>, m: Member, p: nat, rest: seq<Byte>) returns (sizes: MemberSizes, crc: nat)
    requires (forall i :: 0 <= i < |front| ==> Framed(front[i])) && Fits(m) && m.descriptor && p < |m.data|
    requires DescriptorAt(false, Scanned(m), p) && forall q :: 0 <= q < p ==> !DescriptorAt(false, Scanned(m), q)
    ensures var r := Run(START, Locals(front) + (LocalHeaderBytes(m) + Scanned(m)[..p + 16]) + rest);
            r.Some? ==>
              && sizes.compressed == p && Check(sizes, METHOD_STORED).None?
              && ArchiveEvents(front) + EarlyEvents(m, p, sizes, crc) <= r.value.events
  {
    hide Run, Locals, Tail, ArchiveEvents, DescriptorAt, Framed, Fits, LocalHeaderBytes, DescriptorBody, EarlyEvents, Check;
    LocalsRun(front);
    var w := START.(offset := |Locals(front)|, localCount := |front|);
    sizes, crc := EarlyEnd(w, m, p);
    var upTo := LocalHeaderBytes(m) + Scanned(m)[..p + 16];
    if Run(START, Locals(front) + upTo + rest).Some? {
      PrefixReports(START, Locals(front) + upTo, rest);
      RunThen(START, Locals(front), upTo);
    }
  }

  /** A member with an early descriptor, the first such: a walk of the archive reports it cut short there. */
  lemma EarlyReported(ms: seq<Member>, k: nat, p: nat) returns (sizes: MemberSizes, crc: nat)
    requires k < |ms| && (forall i :: 0 <= i < |ms| ==> Fits(ms[i])) && (forall i :: 0 <= i < k ==> Framed(ms[i]))
    requires ms[k].descriptor && p < |ms[k].data| && DescriptorAt(false, Scanned(ms[k]), p)
    requires forall q :: 0 <= q < p ==> !DescriptorAt(false, Scanned(ms[k]), q)
    ensures var r := Run(START, Archive(ms));
            r.Some? ==> ArchiveEvents(ms[..k]) + EarlyEvents(ms[k], p, sizes, crc) <= r.value.events
  {
    hide Run, Locals, Tail, ArchiveEvents, DescriptorAt, Framed, Fits, LocalHeaderBytes, DescriptorBody, EarlyEvents, Check;
    var rest := EarlyRest(ms, k, p);
    sizes, crc := EarlyInside(ms[..k], ms[k], p, rest);
  }

  // When a known-size header claims another length than its member has.

  lemma KnownBytes(m: Member, rest: seq<Byte>)
    requires !m.descriptor && m.data <= rest
    ensures LocalHeaderKnown(m.name, m.utf8, m.crc, |m.data|) + rest == LocalBytes(m) + rest[|m.data|..]
  {
    hide LocalHeaderKnown;
    var header := LocalHeaderKnown(m.name, m.utf8, m.crc, |m.data|);
    assert m.data + [] == m.data && rest == m.data + rest[|m.data|..];
    assert header + (m.data + rest[|m.data|..]) == header + m.data + rest[|m.data|..];
  }

  /** The walker takes as many bytes as the header claims for the member's; if there are not that many, it cannot finish. */
  lemma ClaimedRead(front: seq<Member>, m: Member, rest: seq<Byte>) returns (read: Member)
    requires (forall i :: 0 <= i < |front| ==> Framed(front[i])) && Fits(m) && !m.descriptor
    requires var r := Run(START, Locals(front) + (LocalHeaderKnown(m.name, m.utf8, m.crc, |m.data|) + rest));
             r.Some? && MayFinish(r.value.next)
    ensures Fits(read) && read == m.(data := read.data) && |read.data| == |m.data|
    ensures ArchiveEvents(front) + MemberEvents(read) <=
            Run(START, Locals(front) + (LocalHeaderKnown(m.name, m.utf8, m.crc, |m.data|) + rest)).value.events
  {
    hide Run, Locals, ArchiveEvents, LocalHeaderKnown, DataEvents, LocalHeaderBytes;
    var header, len := LocalHeaderKnown(m.name, m.utf8, m.crc, |m.data|), |m.data|;
    LocalsRun(front);
    var w := START.(offset := |Locals(front)|, localCount := |front|);
    RunThen(START, Locals(front), header + rest);
    if |rest| < len {
      var all := rest + m.data[|rest|..];
      read := m.(data := all);
      KnownHeaderRun(w, m);
      RunThen(w, header, rest);
      assert all[..|rest|] == rest;
      var w1 := Run(w, header).value.next;
      DataCounts(w1, all, len, m.crc, METHOD_STORED, None, |rest|);
      assert false;
    } else {
      read := m.(data := rest[..len]);
      MemberRun(w, read);
      KnownBytes(read, rest);
      PrefixReports(w, LocalBytes(read), rest[len..]);
    }
  }

  lemma EarlyDescriptorShows(ms: seq<Member>, k: nat, p: nat)
    requires k < |ms| && (forall i :: 0 <= i < |ms| ==> Fits(ms[i])) && (forall i :: 0 <= i < k ==> Framed(ms[i]))
    requires ms[k].descriptor && p < |ms[k].data| && DescriptorAt(false, Scanned(ms[k]), p)
    requires forall q :: 0 <= q < p ==> !DescriptorAt(false, Scanned(ms[k]), q)
    ensures var r := Run(START, Archive(ms)); r.Some? ==> r.value.events != WholeEvents(ms)
  {
    hide Run, Archive, ArchiveEvents, DescriptorAt, Framed, Fits;
    var m, front := ms[k], ms[..k];
    var sizes, crc := EarlyReported(ms, k, p);
    var r := Run(START, Archive(ms));
    if r.Some? {
      ArchiveEventsPrefix(ms, k);
      var at := |ArchiveEvents(front)| + p + 1;
      assert (ArchiveEvents(front) + MemberEvents(m))[at] == MemberEvents(m)[p + 1] == MemberData(m.data[p]);
      assert (ArchiveEvents(front) + EarlyEvents(m, p, sizes, crc))[at] == EarlyEvents(m, p, sizes, crc)[p + 1] == MemberEnd(sizes, crc);
      assert WholeEvents(ms)[at] == MemberData(m.data[p]);
    }
  }

  lemma EarlyRest(ms: seq<Member>, k: nat, p: nat) returns (rest: seq<Byte>)
    requires k < |ms| && ms[k].descriptor && p < |ms[k].data|
    ensures p + 16 <= |Scanned(ms[k])|
    ensures Archive(ms) == Locals(ms[..k]) + (LocalHeaderBytes(ms[k]) + Scanned(ms[k])[..p + 16]) + rest
  {
    hide Locals, Tail, LocalHeaderBytes, DescriptorBody;
    var m := ms[k];
    LocalsPrefix(ms, k);
    var upTo := Locals(ms[..k]) + (LocalHeaderBytes(m) + Scanned(m)[..p + 16]);
    assert LocalBytes(m) == LocalHeaderBytes(m) + Scanned(m);
    assert upTo <= Locals(ms[..k]) + LocalBytes(m);
    rest := Archive(ms)[|upTo|..];
  }

  /**
   * The round trip holds exactly when no unknown-size member's data holds an earlier self-consistent descriptor:
   * for every list of members whose fields fit.
   */
  lemma RoundTripExactly(ms: seq<Member>)
    requires (forall i :: 0 <= i < |ms| ==> Fits(ms[i])) && |Archive(ms)| <= MAX64
    ensures Reports(Archive(ms), WholeEvents(ms)) <==> forall i :: 0 <= i < |ms| && ms[i].descriptor ==> NoEarlyDescriptor(ms[i])
  {
    hide Run, Locals, Tail, ArchiveEvents, MayFinish, DescriptorAt, Archive, WholeEvents, Fits;
    if forall i :: 0 <= i < |ms| && ms[i].descriptor ==> NoEarlyDescriptor(ms[i]) {
      RoundTrip(ms);
    } else {
      var i: nat :| i < |ms| && ms[i].descriptor && !NoEarlyDescriptor(ms[i]);
      var k := FirstUnframed(ms, i);
      var q: nat :| q < |ms[k].data| && DescriptorAt(false, Scanned(ms[k]), q);
      var p := LeastEarly(ms[k], q);
      EarlyDescriptorShows(ms, k, p);
    }
  }

  /** A one-member archive whose data is a descriptor that claims no bytes is not reported as it was written. */
  lemma EarlyDescriptorExample(name: seq<Byte>, utf8: bool, crc: nat)
    requires |name| <= MAX16 && crc <= MAX32
    ensures var m := Member(name, utf8, crc, DescriptorBytes(0, 0), true); !Reports(Archive([m]), WholeEvents([m]))
  {
    hide Run, Archive, WholeEvents, BodySizes;
    var m := Member(name, utf8, crc, DescriptorBytes(0, 0), true);
    var t := Scanned(m);
    assert t[0..4] == DATA_DESCRIPTOR && t[4..16] == DescriptorBody(0, 0);
    ReadsDescriptor(0, 0);
    EarlyDescriptorShows([m], 0, 0);
  }

  lemma {:induction false} FirstUnframed(ms: seq<Member>, i: nat) returns (k: nat)
    requires i < |ms| && !Framed(ms[i])
    ensures k < |ms| && !Framed(ms[k]) && forall j :: 0 <= j < k ==> Framed(ms[j])
    decreases i
  {
    if j: nat :| j < i && !Framed(ms[j]) {
      k := FirstUnframed(ms, j);
    } else {
      k := i;
    }
  }
}
