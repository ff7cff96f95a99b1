/** The cut rules of the content-defined chunkers, in numbers and letters (src/constants.rs, src/chunker/gear.rs). */
module CutRules {
  import opened Bytes
  import opened Gear
  import A = Assembler
  import G = GenericCdc
  import S = StructuredText
  import F = FramedAudio

  // What the masks ask of a hash.

  /** Eighteen low bits zero before the target size, fourteen from it on. */
  predicate GenericHit(h: bv64, len: nat) {
    if len < 65536 then h % 262144 == 0 else h % 16384 == 0
  }

  /** The top ten bits zero before the target size, the top eleven from it on. */
  predicate TextHit(h: bv64, len: nat) {
    if len < 65536 then h < 0x0040_0000_0000_0000 else h < 0x0020_0000_0000_0000
  }

  lemma GenericMasks(h: bv64)
    ensures Cuts(h, GENERIC_STRICT) <==> h % 262144 == 0
    ensures Cuts(h, GENERIC_RELAXED) <==> h % 16384 == 0
  {
  }

  lemma TextMasks(h: bv64)
    ensures Cuts(h, TEXT_STRICT) <==> h < 0x0040_0000_0000_0000
    ensures Cuts(h, TEXT_RELAXED) <==> h < 0x0020_0000_0000_0000
  {
  }

  // The rules.

  /** generic-cdc-v1 cuts from 16 KiB on where the hash hits, and at 256 KiB. */
  lemma GenericRule(t: Table, chunk: seq<Byte>)
    ensures G.CutAfter(t, chunk) <==> 16384 <= |chunk| && (262144 <= |chunk| || GenericHit(Hash(t, chunk), |chunk|))
  {
    hide Hash, Cuts, GENERIC_STRICT, GENERIC_RELAXED;
    GenericMasks(Hash(t, chunk));
  }

  /** Opaque bytes of a container are cut by the same rule. */
  lemma PerByteRule(p: A.Params, chunk: seq<Byte>)
    ensures A.CutAfter(p, A.PerByte, chunk) <==> 16384 <= |chunk| && (262144 <= |chunk| || GenericHit(Hash(p.table, chunk), |chunk|))
  {
    hide Hash, Cuts, GENERIC_STRICT, GENERIC_RELAXED;
    if chunk != [] {
      GenericMasks(Hash(p.table, chunk));
    }
  }

  /**
   * XML inside a container is cut where the text hash hits: before the target size only after a line feed or a closing
   * angle bracket, from it on after blanks, commas and closing punctuation, too.
   */
  lemma SeamRule(p: A.Params, chunk: seq<Byte>)
    ensures A.CutAfter(p, A.TextSeam, chunk) <==>
            16384 <= |chunk| &&
            (262144 <= |chunk| ||
             (TextHit(Hash(p.table, chunk), |chunk|) &&
              Among(chunk[|chunk| - 1], if |chunk| < 65536 then "\n>" else "\n>\t\r ,;.}])\"")))
  {
    hide Hash, Cuts, TEXT_STRICT, TEXT_RELAXED;
    if chunk != [] {
      TextMasks(Hash(p.table, chunk));
      Seams(chunk[|chunk| - 1]);
    }
  }

  lemma Seams(b: Byte)
    ensures A.SeamOf(b) == A.StrictSeam <==> Among(b, "\n>")
    ensures A.SeamOf(b) != A.NoSeam <==> Among(b, "\n>\t\r ,;.}])\"")
  {
    var strict, all := "\n>", "\n>\t\r ,;.}])\"";
    assert strict[0] == '\n' && strict[1] == '>';
    assert |all| == 12 && all[0] == '\n' && all[1] == '>' && all[2] == '\t' && all[3] == '\r' && all[4] == ' ' && all[5] == ','
           && all[6] == ';' && all[7] == '.' && all[8] == '}' && all[9] == ']' && all[10] == ')' && all[11] == '"';
  }

  /** Structured text likewise, but with the closing angle bracket among the later ones. */
  lemma TextRule(t: Table, chunk: seq<Byte>)
    requires chunk != []
    ensures S.CutAfter(t, chunk) <==>
            16384 <= |chunk| &&
            (262144 <= |chunk| ||
             (TextHit(Hash(t, chunk), |chunk|) &&
              Among(chunk[|chunk| - 1], if |chunk| < 65536 then "\n" else "\n\t\r ,;.}]>)")))
  {
    hide Hash, Cuts, TEXT_STRICT, TEXT_RELAXED;
    TextMasks(Hash(t, chunk));
    Candidates(chunk[|chunk| - 1]);
  }

  lemma Candidates(b: Byte)
    ensures S.CandidateOf(b) == S.LineEnd <==> Among(b, "\n")
    ensures S.CandidateOf(b) != S.NoCandidate <==> Among(b, "\n\t\r ,;.}]>)")
  {
    var line, all := "\n", "\n\t\r ,;.}]>)";
    assert line[0] == '\n';
    assert |all| == 11 && all[0] == '\n' && all[1] == '\t' && all[2] == '\r' && all[3] == ' ' && all[4] == ',' && all[5] == ';'
           && all[6] == '.' && all[7] == '}' && all[8] == ']' && all[9] == '>' && all[10] == ')';
  }

  /** Between audio frames: the top seven bits zero before the target size, the top five from it on, and always near the limit. */
  lemma FrameRule(t: Table, buffer: seq<Byte>)
    ensures F.CutAtSeam(t, buffer) <==>
            16384 <= |buffer| &&
            (253952 <= |buffer| ||
             if |buffer| < 65536 then Hash(t, buffer) < 0x0200_0000_0000_0000 else Hash(t, buffer) < 0x0800_0000_0000_0000)
  {
    hide Hash, Cuts;
    FrameMasks(Hash(t, buffer));
  }

  lemma FrameMasks(h: bv64)
    ensures Cuts(h, F.FRAME_STRICT) <==> h < 0x0200_0000_0000_0000
    ensures Cuts(h, F.FRAME_RELAXED) <==> h < 0x0800_0000_0000_0000
  {
  }

  /** Inside tags, metadata and FLAC audio the rule is that of generic-cdc-v1. */
  lemma OpaqueRule(t: Table, buffer: seq<Byte>)
    ensures F.CutInOpaque(t, buffer) <==> 16384 <= |buffer| && (262144 <= |buffer| || GenericHit(Hash(t, buffer), |buffer|))
  {
    hide Hash, Cuts, GENERIC_STRICT, GENERIC_RELAXED;
    GenericMasks(Hash(t, buffer));
  }

  // What a structural position does.

  /** A unit starts a chunk of its own exactly when nothing is left before it: the boundary closed it, joined it, or found nothing. */
  lemma UnitStarts(p: A.Params, a: A.Assembly)
    requires A.ValidParams(p)
    ensures var out := A.Apply(p, a, A.Boundary);
            && (out.next.buffer == [] <==>
                  a.buffer == [] || p.unitMin <= |a.buffer| || (a.held != [] && |a.held| + |a.buffer| <= 262144))
            && (out.next.buffer != [] ==> out == A.Out(a, []))
            && (out.chunks != [] <==> a.held != [] && p.unitMin <= |a.buffer| && a.buffer != [])
            && (out.next.buffer == [] && a.buffer != [] ==> out.next.held == if p.unitMin <= |a.buffer| then a.buffer else a.held + a.buffer)
  {
  }

  /** A large unit starts one always; what precedes it is joined to the held chunk exactly when the two fit. */
  lemma LargeUnitStarts(p: A.Params, a: A.Assembly, n: nat)
    requires n < |a.buffer|
    ensures var out := A.Apply(p, a, A.LargeUnit(n));
            var before := a.buffer[..|a.buffer| - n];
            && out.next.buffer == a.buffer[|a.buffer| - n..]
            && (if a.held != [] && |a.held| + |before| <= 262144 then out.next.held == a.held + before && out.chunks == []
                else out.next.held == before && out.chunks == if a.held == [] then [] else [a.held])
  {
  }

  /** The gate last set is the one that bytes are cut by. */
  lemma GateRules(p: A.Params, a: A.Assembly, gate: A.Gate, b: Byte)
    ensures var out := A.Assemble(p, a, [A.SetGate(gate), A.Push(b)]);
            if A.CutAfter(p, gate, a.buffer + [b]) then
              out.next == A.Assembly([], a.buffer + [b], gate) && out.chunks == if a.held == [] then [] else [a.held]
            else out == A.Out(A.Assembly(a.buffer + [b], a.held, gate), [])
  {
    hide A.CutAfter;
    var ops := [A.SetGate(gate), A.Push(b)];
    assert ops[..1] == [A.SetGate(gate)] && ops[..1][..0] == [];
    assert A.Assemble(p, a, ops[..1]) == A.Out(a.(gate := gate), []);
  }
}
