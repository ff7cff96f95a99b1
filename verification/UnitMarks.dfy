/** Which units of a container the walkers mark as large and which they refuse, and why, in numbers and letters (the walkers of src/chunker). */
module UnitMarks {
  import opened Bytes
  import I = IsobmffWalker
  import H = IsobmffHeaders
  import Z = ZipWalker
  import R = ZipRecords
  import M = Matroska

  // ISO BMFF.

  /** A box that holds no boxes is marked when its header ends, if it runs to the end or holds at least 16 KiB; a container never is. */
  lemma BoxMarked(w: I.Walk, h: H.BoxHeader, n: nat)
    requires H.Printable(h) && n + 1 == |H.PrintHeader(h)| && w.state == I.Header(H.PrintHeader(h)[..n])
    requires I.Consume(w, H.PrintHeader(h)[n]).Go?
    ensures I.Consume(w, H.PrintHeader(h)[n]).large ==
            if !H.Names(H.CONTAINERS, h.kind) && (h.form.ToEnd? || n + 1 + 16384 <= h.form.size) then Some(n + 1) else None
  {
    hide H.PrintHeader, I.BigEndian, I.IsContainer, H.Names, I.MayBegin;
    var s := H.PrintHeader(h);
    assert s[..n] + [s[n]] == s && s + [] == s;
    H.HeaderReads(h, []);
    H.ContainerBoxes(h.kind);
  }

  /** Why a header is refused whose last byte what is open still has room for, if it is. */
  function BoxFault(w: I.Walk, h: H.BoxHeader): Option<I.Fault> {
    var n, inside := |H.PrintHeader(h)|, w.open != [];
    var parent := if inside then w.open[|w.open| - 1] else None;
    if !w.seenFirst && !H.Names(H.FIRST_BOXES, h.kind) then Some(I.NotAnIsoBmffStream)
    else if h.form.ToEnd? then
      if inside then Some(I.OpenSizeNested) else if H.Names(H.CONTAINERS, h.kind) && |w.open| == 16 then Some(I.DepthExceeded) else None
    else if h.form.size < n then Some(I.SizeBelowHeader)
    else if parent.Some? && parent.value < 1 + h.form.size - n then Some(I.ChildOverrunsParent)
    else if H.Names(H.CONTAINERS, h.kind) && |w.open| == 16 then Some(I.DepthExceeded)
    else None
  }

  /** A header is refused by the first of these rules that it breaks. */
  lemma BoxRefused(w: I.Walk, h: H.BoxHeader, n: nat)
    requires H.Printable(h) && n + 1 == |H.PrintHeader(h)| && w.state == I.Header(H.PrintHeader(h)[..n])
    ensures var step := I.Consume(w, H.PrintHeader(h)[n]);
            if !I.CanDebit(w.open, 1) then step == I.Stop(I.ChildOverrunsParent)
            else if BoxFault(w, h).Some? then step == I.Stop(BoxFault(w, h).value)
            else step.Go?
  {
    hide H.PrintHeader, I.BigEndian, I.IsContainer, H.Names, I.MayBegin, I.PopExhausted;
    var s := H.PrintHeader(h);
    assert s[..n] + [s[n]] == s && s + [] == s;
    H.HeaderReads(h, []);
    H.ContainerBoxes(h.kind);
    H.FirstBoxes(h.kind);
  }

  /** No other byte marks anything. */
  lemma BoxUnmarked(w: I.Walk, b: Byte)
    requires I.Consume(w, b).Go? && I.Consume(w, b).large.Some?
    ensures w.state.Header? && 8 <= |w.state.got| + 1 && |w.state.got| + 1 == I.HeaderLen(w.state.got + [b])
  {
    hide I.OpenBox, I.BigEndian;
  }

  // ZIP.

  /** A member is marked when its local header ends, if its compressed size is known there and at least 16 KiB. */
  lemma MemberMarked(w: Z.Walk, h: R.LocalHeader, name: seq<Byte>, extra: seq<Byte>)
    requires Z.EnterMember(w, h, name, extra).Go?
    ensures var sizes := R.LocalSizes(h, extra);
            Z.EnterMember(w, h, name, extra).large ==
            if (h.hasDescriptor && h.compressed == 0) || sizes.value.compressed < 16384 then None else Some(30 + |name| + |extra|)
    ensures !(h.hasDescriptor && h.compressed == 0) ==> R.LocalSizes(h, extra).Ok?
  {
    hide R.LocalSizes, R.Check;
  }

  /** Sizes are plausible when a stored member's agree and a deflated one's output is at most 1032 times its input and 64 bytes more. */
  lemma Plausible(sizes: R.MemberSizes, codec: nat)
    requires sizes.compressed * 1032 + 64 < 0x1_0000_0000_0000_0000
    ensures R.Check(sizes, codec).None? <==>
            && (codec == 0 ==> sizes.compressed == sizes.uncompressed)
            && (codec == 8 || codec == 9 ==> sizes.uncompressed <= sizes.compressed * 1032 + 64)
    ensures R.Check(sizes, codec).Some? ==> R.Check(sizes, codec).value == if codec == 0 then R.StoredSizesDisagree else R.ImplausibleExpansion
  {
  }

  /** Which signature is refused, and as what: one of no record, a member behind the directory, a record out of its place. */
  lemma SignatureRefused(w: Z.Walk, sig: seq<Byte>)
    requires |sig| == 4
    ensures var known := sig[..2] == Ascii("PK") && sig[2..] in [[1, 2], [3, 4], [5, 6], [6, 6], [6, 7]];
            var local, central, zip64, locator, end := sig[2..] == [3, 4], sig[2..] == [1, 2], sig[2..] == [6, 6], sig[2..] == [6, 7], sig[2..] == [5, 6];
            var follows := match w.phase
                           case Members => local || central || zip64 || end
                           case Central => central || zip64 || end
                           case Zip64EndSeen => locator
                           case LocatorSeen => end
                           case Complete => false;
            var step := Z.DispatchSignature(w, sig);
            && (step.Go? <==> known && follows)
            && (step.Stop? ==> step.fault == if !known then R.UnknownSignature else if local then R.MemberAfterCentralDirectory else R.RecordOutOfSequence)
  {
    var pk := "PK";
    assert pk[0] == 'P' && pk[1] == 'K' && Ascii("PK") == [0x50, 0x4B];
    assert sig == [sig[0], sig[1], sig[2], sig[3]] && sig[..2] == [sig[0], sig[1]] && sig[2..] == [sig[2], sig[3]];
  }

  // Matroska.

  /** IDs whose first byte says where they may stand: the children of a segment, and of a cluster. */
  const SEGMENT_CHILDREN: seq<seq<Byte>> :=
    [[0x11, 0x4D, 0x9B, 0x74], [0x15, 0x49, 0xA9, 0x66], [0x16, 0x54, 0xAE, 0x6B], [0x1F, 0x43, 0xB6, 0x75],
     [0x1C, 0x53, 0xBB, 0x6B], [0x10, 0x43, 0xA7, 0x70], [0x12, 0x54, 0xC3, 0x67], [0x19, 0x41, 0xA4, 0x69]]
  const CLUSTER_CHILDREN: seq<seq<Byte>> :=
    [[0xE7], [0xA7], [0xAB], [0xA3], [0xA0], [0xAF], [0x58, 0x54], [0xEC], [0xBF]]

  predicate Listed(ids: seq<seq<Byte>>, id: nat) {
    exists i :: 0 <= i < |ids| && M.Number(ids[i]) == id
  }

  lemma Four(a: Byte, b: Byte, c: Byte, d: Byte)
    ensures M.Number([a]) == a && M.Number([a, b]) == a * 256 + b && M.Number([a, b, c, d]) == ((a * 256 + b) * 256 + c) * 256 + d
  {
    assert [a, b, c, d][..3] == [a, b, c] && [a, b, c][..2] == [a, b] && [a, b][..1] == [a] && [a][..0] == [];
  }

  lemma SegmentChildren(id: nat)
    ensures M.IsSegmentLevel(id) <==> Listed(SEGMENT_CHILDREN, id)
  {
    var words := [0x114D_9B74, 0x1549_A966, 0x1654_AE6B, 0x1F43_B675, 0x1C53_BB6B, 0x1043_A770, 0x1254_C367, 0x1941_A469];
    var ids := SEGMENT_CHILDREN;
    assert |ids| == |words|;
    forall i | 0 <= i < |words| ensures M.Number(ids[i]) == words[i] {
      Four(ids[i][0], ids[i][1], ids[i][2], ids[i][3]);
      assert ids[i] == [ids[i][0], ids[i][1], ids[i][2], ids[i][3]];
    }
    assert M.IsSegmentLevel(id) <==> id in words;
  }

  lemma ClusterChildren(id: nat)
    ensures M.IsClusterChild(id) <==> Listed(CLUSTER_CHILDREN, id)
  {
    var words := [0xE7, 0xA7, 0xAB, 0xA3, 0xA0, 0xAF, 0x5854, 0xEC, 0xBF];
    var ids := CLUSTER_CHILDREN;
    assert |ids| == |words|;
    forall i | 0 <= i < |words| ensures M.Number(ids[i]) == words[i] {
      Four(ids[i][0], ids[i][|ids[i]| - 1], 0, 0);
      assert if i == 6 then ids[i] == [ids[i][0], ids[i][1]] else ids[i] == [ids[i][0]];
    }
    assert M.IsClusterChild(id) <==> id in words;
  }

  /** IDs are one to four bytes long and sizes one to eight, by the first set bit of their first byte. */
  lemma Lengths(b: Byte, n: nat)
    requires 1 <= n <= 8
    ensures M.IdLen(b) == Some(n) <==> n <= 4 && M.Marker(n) <= b < 2 * M.Marker(n)
    ensures M.SizeLen(b) == Some(n) <==> M.Marker(n) <= b < 2 * M.Marker(n)
    ensures M.IdLen(b).None? <==> b < 16
    ensures M.SizeLen(b).None? <==> b == 0
  {
  }

  /** An element whose header ends is marked when it is a segment's child that is an unknown-size cluster or holds at least 16 KiB. */
  lemma ElementMarked(w: M.Walk, id: seq<Byte>, size: seq<Byte>)
    requires 1 <= |size| <= 8 && M.OpenElement(w, id, size).Go?
    ensures var inside := w.open != [] && w.open[|w.open| - 1].kind == M.Cluster;
            var level := w.open != [] && (inside ==> !M.IsClusterChild(M.Number(id)));
            M.OpenElement(w, id, size).large ==
            if level && (M.SizeValue(size).unknown || 16384 <= M.SizeValue(size).value) then Some(|id| + |size|) else None
  {
    hide M.Number, M.SizeValue, M.CloseExhausted, M.Room;
  }

  /** Why an element is refused whose header has just ended, if it is; `room` is what the innermost known-size container has left. */
  function ElementFault(w: M.Walk, id: nat, size: M.Size, room: Option<nat>): Option<M.Fault> {
    var inside := w.open != [] && w.open[|w.open| - 1].kind == M.Cluster;
    if !size.unknown && room.Some? && room.value < size.value then Some(M.ElementOverrunsParent)
    else if w.open == [] then
      if !w.seenHeader && id != 0x1A45_DFA3 then Some(M.NotMatroska)
      else if w.seenHeader && id != 0x1853_8067 && id != 0xEC then Some(M.TopLevelElement)
      else if size.unknown && id != 0x1853_8067 then Some(M.UnknownSizeForbidden)
      else None
    else if inside && !Listed(CLUSTER_CHILDREN, id) && !Listed(SEGMENT_CHILDREN, id) then Some(M.UnexpectedClusterChild)
    else if size.unknown && (id != 0x1F43_B675 || (inside && Listed(CLUSTER_CHILDREN, id))) then Some(M.UnknownSizeForbidden)
    else None
  }

  /** An element is refused by the first of these rules that it breaks. */
  lemma ElementRefused(w: M.Walk, id: seq<Byte>, size: seq<Byte>)
    requires 1 <= |size| <= 8
    ensures var fault := ElementFault(w, M.Number(id), M.SizeValue(size), M.Room(w.open));
            if fault.Some? then M.OpenElement(w, id, size) == M.Stop(fault.value) else M.OpenElement(w, id, size).Go?
  {
    hide M.Number, M.SizeValue, M.CloseExhausted, M.Room, Listed, M.IsSegmentLevel, M.IsClusterChild;
    ClusterChildren(M.Number(id));
    SegmentChildren(M.Number(id));
    Cluster();
  }

  lemma Cluster()
    ensures M.IsSegmentLevel(0x1F43_B675) && !M.IsClusterChild(0x1F43_B675)
  {
  }

  /** No other byte marks anything. */
  lemma ElementUnmarked(w: M.Walk, b: Byte)
    requires M.ValidState(w.state) && M.Consume(w, b).Go? && M.Consume(w, b).large.Some?
    ensures w.state.SizeOf? && M.SizeLen((w.state.size + [b])[0]) == Some(|w.state.size| + 1)
  {
    hide M.OpenElement, M.Debit, M.IdLen, M.SizeLen;
  }

  /** Between elements the walker is at a unit boundary everywhere but inside a cluster of unknown size. */
  lemma ElementBoundary(w: M.Walk)
    requires M.StackShape(w.open)
    ensures M.AtUnitBoundary(w) <==> w.state == M.Id([]) && |w.open| < 2
  {
  }
}
