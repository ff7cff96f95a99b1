/** Members of known size that a descriptor follows (src/chunker/zip/walker/descriptor.rs). */
module ZipDescriptors {
  import opened Bytes
  import opened ZipRecords
  import opened ZipWalker
  import opened ZipScan
  import opened ZipRoundTrip

  /** The bytes are one descriptor: its body, with or without the signature before it. */
  predicate Describes(zip64: bool, d: seq<Byte>) {
    if 4 <= |d| && d[..4] == DATA_DESCRIPTOR then |d| == 4 + BodyLen(zip64) else |d| == BodyLen(zip64)
  }

  function BodyOf(zip64: bool, d: seq<Byte>): (body: seq<Byte>)
    requires Describes(zip64, d)
    ensures |body| == BodyLen(zip64)
  {
    d[|d| - BodyLen(zip64)..]
  }

  /** Until it is whole, a descriptor is only collected. */
  lemma DescriptorWaits(w: Walk, zip64: bool, dataLen: nat, codec: nat, d: seq<Byte>, k: nat)
    requires Describes(zip64, d) && k < |d|
    ensures CloseDescriptor(w, zip64, dataLen, codec, d[..k]) == Go(w.(state := Descriptor(zip64, dataLen, codec, d[..k])), [], None)
  {
    assert 4 <= k ==> d[..k][..4] == d[..4];
  }

  lemma {:induction false} DescriptorCollects(w: Walk, zip64: bool, dataLen: nat, codec: nat, d: seq<Byte>, k: nat)
    requires w.state == Descriptor(zip64, dataLen, codec, []) && Describes(zip64, d) && k < |d|
    ensures Run(w, d[..k]) == Some(Ran(w.(state := Descriptor(zip64, dataLen, codec, d[..k]), offset := w.offset + k), []))
  {
    hide Run, CloseDescriptor, Describes;
    if k == 0 {
      assert d[..0] == [];
      RunNothing(w);
    } else {
      DescriptorCollects(w, zip64, dataLen, codec, d, k - 1);
      assert d[..k] == d[..k - 1] + [d[k - 1]];
      DescriptorWaits(w.(state := Signature([]), offset := w.offset + k - 1), zip64, dataLen, codec, d, k);
      RunStepQuiet(w, d, k - 1, w.(state := Descriptor(zip64, dataLen, codec, d[..k - 1]), offset := w.offset + k - 1));
    }
  }

  /** What a whole descriptor does: it faults on another size than the data's, or an impossible one, or it ends the member. */
  lemma DescriptorCloses(w: Walk, zip64: bool, dataLen: nat, codec: nat, d: seq<Byte>)
    requires Describes(zip64, d)
    ensures var sizes := BodySizes(zip64, BodyOf(zip64, d));
            CloseDescriptor(w, zip64, dataLen, codec, d) ==
            if sizes.compressed != dataLen then Stop(DescriptorSizeMismatch)
            else CloseMember(w, codec, zip64, BodyOf(zip64, d))
  {
    var n := BodyLen(zip64);
    if d[..4] == DATA_DESCRIPTOR {
      assert d[4..4 + n] == d[4..] == BodyOf(zip64, d);
    } else {
      assert d[0..n] == d == BodyOf(zip64, d);
    }
  }

  lemma DescriptorRun(w: Walk, zip64: bool, dataLen: nat, codec: nat, d: seq<Byte>)
    requires w.state == Descriptor(zip64, dataLen, codec, []) && Describes(zip64, d)
    ensures var sizes := BodySizes(zip64, BodyOf(zip64, d));
            Run(w, d) ==
            if sizes.compressed != dataLen || Check(sizes, codec).Some? then None
            else Some(Ran(w.(state := Signature([]), offset := w.offset + |d|), [MemberEnd(sizes, BodyCrc(BodyOf(zip64, d)))]))
  {
    hide Run, CloseDescriptor, Describes, BodySizes, Check, BodyCrc;
    SomeBytes(zip64, d);
    var last := |d| - 1;
    DescriptorCollects(w, zip64, dataLen, codec, d, last);
    assert d[..last] + [d[last]] == d == d[..last + 1];
    DescriptorCloses(w.(state := Signature([]), offset := w.offset + last), zip64, dataLen, codec, d);
    RunStepQuiet(w, d, last, w.(state := Descriptor(zip64, dataLen, codec, d[..last]), offset := w.offset + last));
  }

  lemma SomeBytes(zip64: bool, d: seq<Byte>)
    requires Describes(zip64, d)
    ensures 12 <= |d|
  {
  }

  /** Data of known size, with a descriptor to come: every byte is the member's. */
  lemma DescribedDataRun(w: Walk, data: seq<Byte>, uncompressed: nat, crc: nat, codec: nat, zip64: bool)
    requires data != [] && w.state == Data(|data|, |data|, uncompressed, crc, codec, Some(zip64))
    ensures Run(w, data) ==
            Some(Ran(w.(state := Descriptor(zip64, |data|, codec, []), offset := w.offset + |data|), DataEvents(data)))
  {
    hide Run, DataEvents, Consume;
    var last := |data| - 1;
    DataCounts(w, data, uncompressed, crc, codec, Some(zip64), last);
    RunStep(w, data, last);
    LastByte(w.(state := Data(1, |data|, uncompressed, crc, codec, Some(zip64)), offset := w.offset + last), data[last]);
    DataOne(data, last);
    assert data[..last + 1] == data;
  }
}
