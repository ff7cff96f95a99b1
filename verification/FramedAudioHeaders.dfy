/** Frame and block headers as the standards lay them out, and that the walker reads exactly their fields. */
module FramedAudioHeaders {
  import opened Bytes
  import opened AudioFrames
  import H = IsobmffHeaders

  function Bit(on: bool): (b: Byte) {
    if on then 1 else 0
  }

  // MPEG audio frame headers: section 2.4.1.3 of ISO/IEC 11172-3, with the version bits of MPEG-2 and MPEG-2.5.

  datatype MpegHeader = MpegHeader(version: nat, layer: nat, unprotected: bool, bitrate: nat, rate: nat, padding: bool, other: bool, last: Byte)

  predicate MpegFits(h: MpegHeader) {
    h.version < 4 && h.layer < 4 && h.bitrate < 16 && h.rate < 4
  }

  function PrintMpeg(h: MpegHeader): (s: seq<Byte>)
    requires MpegFits(h)
    ensures |s| == 4
  {
    [255, 224 + 8 * h.version + 2 * h.layer + Bit(h.unprotected), 16 * h.bitrate + 4 * h.rate + 2 * Bit(h.padding) + Bit(h.other), h.last]
  }

  type Rows = t: seq<seq<nat>> | |t| == 14 && forall i :: 0 <= i < 14 ==> |t[i]| == 5 witness seq(14, _ => [0, 0, 0, 0, 0])

  /** The standard's table, one row a bitrate index: MPEG-1 layers I, II, III, then MPEG-2 layer I, layers II and III. */
  const BITRATES: Rows :=
    [[32, 32, 32, 32, 8],
     [64, 48, 40, 48, 16],
     [96, 56, 48, 56, 24],
     [128, 64, 56, 64, 32],
     [160, 80, 64, 80, 40],
     [192, 96, 80, 96, 48],
     [224, 112, 96, 112, 56],
     [256, 128, 112, 128, 64],
     [288, 160, 128, 144, 80],
     [320, 192, 160, 160, 96],
     [352, 224, 192, 176, 112],
     [384, 256, 224, 192, 128],
     [416, 320, 256, 224, 144],
     [448, 384, 320, 256, 160]]

  function Column(h: MpegHeader): nat
    requires 1 <= h.layer <= 3
  {
    if h.version == 3 then 3 - h.layer else if h.layer == 3 then 3 else 4
  }

  /** Samples a second: MPEG-2 halves the rates of MPEG-1, MPEG-2.5 halves them again. */
  function SampleRate(h: MpegHeader): Pos
    requires h.rate < 3
  {
    var full := if h.rate == 0 then 44100 else if h.rate == 1 then 48000 else 32000;
    if h.version == 3 then full else if h.version == 2 then full / 2 else full / 4
  }

  /** Samples in a frame. */
  function Samples(h: MpegHeader): nat {
    if h.layer == 3 then 384 else if h.layer == 1 && h.version != 3 then 576 else 1152
  }

  predicate Playable(h: MpegHeader) {
    h.version != 1 && h.layer != 0 && 1 <= h.bitrate <= 14 && h.rate < 3
  }

  /** The bytes that hold so many samples at a bitrate, cut down to whole slots, and a padding slot. */
  function Slots(samples: nat, kbps: nat, hertz: Pos, padding: Byte, slotBytes: Pos): nat {
    samples / (8 * slotBytes) * (kbps * 1000) / hertz + padding
  }

  function Kilobits(h: MpegHeader): nat
    requires 1 <= h.layer <= 3 && 1 <= h.bitrate <= 14
  {
    BITRATES[h.bitrate - 1][Column(h)]
  }

  /** A frame's length: layer I counts in slots of four bytes, the others in bytes. */
  function FrameBytes(h: MpegHeader): nat
    requires Playable(h) && MpegFits(h)
  {
    if h.layer == 3 then 4 * Slots(Samples(h), Kilobits(h), SampleRate(h), Bit(h.padding), 4)
    else Slots(Samples(h), Kilobits(h), SampleRate(h), Bit(h.padding), 1)
  }

  lemma Transposed(i: nat)
    requires i < 14
    ensures BITRATES[i] == [V1_LAYER_I[i], V1_LAYER_II[i], V1_LAYER_III[i], V2_LAYER_I[i], V2_OTHERS[i]]
  {
  }

  lemma SecondByte(version: nat, layer: nat, bit: nat)
    requires version < 4 && layer < 4 && bit < 2
    ensures var b := 224 + 8 * version + 2 * layer + bit; b / 8 % 4 == version && b / 2 % 4 == layer
  {
    var b := 224 + 8 * version + 2 * layer + bit;
    assert b / 8 == 28 + version && b / 2 == 112 + 4 * version + layer;
  }

  lemma ThirdByte(bitrate: nat, rate: nat, padding: nat, bit: nat)
    requires bitrate < 16 && rate < 4 && padding < 2 && bit < 2
    ensures var b := 16 * bitrate + 4 * rate + 2 * padding + bit; b / 16 == bitrate && b / 4 % 4 == rate && b / 2 % 2 == padding
  {
    var b := 16 * bitrate + 4 * rate + 2 * padding + bit;
    assert b / 4 == 4 * bitrate + rate && b / 2 == 8 * bitrate + 2 * rate + padding;
  }

  lemma BytesOf(h: MpegHeader)
    requires MpegFits(h) && Playable(h)
    ensures var version := if h.version == 3 then 0 else if h.version == 2 then 1 else 2;
            FrameBytes(h) ==
            MpegBytes(version, 3 - h.layer, Kbps(version, 3 - h.layer, h.bitrate) * 1000, Hertz(version, h.rate), Bit(h.padding))
  {
    hide BITRATES, V1_LAYER_I, V1_LAYER_II, V1_LAYER_III, V2_LAYER_I, V2_OTHERS;
    Transposed(h.bitrate - 1);
  }

  /** An MPEG header fixes the length of its frame: its fields are read where the standard puts them. */
  lemma MpegReads(h: MpegHeader)
    requires MpegFits(h)
    ensures MpegFrameLen(PrintMpeg(h)) ==
            if Playable(h) then Len(FrameBytes(h))
            else if h.bitrate == 0 && h.version != 1 && h.layer != 0 then Bad(FreeFormatBitrate)
            else Bad(BadFrameHeader)
  {
    hide Kbps, Hertz, MpegBytes, FrameBytes;
    SecondByte(h.version, h.layer, Bit(h.unprotected));
    ThirdByte(h.bitrate, h.rate, Bit(h.padding), Bit(h.other));
    if Playable(h) {
      BytesOf(h);
    }
  }

  // ADTS frame headers: section 6.2 of ISO/IEC 13818-7.

  datatype AdtsHeader =
    AdtsHeader(mpeg2: bool, layer: nat, unprotected: bool, profile: nat, frequency: nat, other: bool, channels: nat, copyright: nat,
               length: nat, fullness: nat, frames: nat)

  predicate AdtsFits(h: AdtsHeader) {
    && h.layer < 4 && h.profile < 4 && h.frequency < 16 && h.channels < 8 && h.copyright < 16
    && h.length < 8192 && h.fullness < 2048 && h.frames < 4
  }

  function PrintAdts(h: AdtsHeader): (s: seq<Byte>)
    requires AdtsFits(h)
    ensures |s| == 7
  {
    [255, 240 + 8 * Bit(h.mpeg2) + 2 * h.layer + Bit(h.unprotected),
     64 * h.profile + 4 * h.frequency + 2 * Bit(h.other) + h.channels / 4,
     64 * (h.channels % 4) + 4 * h.copyright + h.length / 2048,
     h.length / 8 % 256,
     32 * (h.length % 8) + h.fullness / 64,
     4 * (h.fullness % 64) + h.frames]
  }

  /** An ADTS header says its frame's length in thirteen bits, header and checksum included. */
  lemma AdtsReads(h: AdtsHeader)
    requires AdtsFits(h)
    ensures AdtsFrameLen(PrintAdts(h)) ==
            if h.frequency == 15 then Bad(BadFrameHeader)
            else if h.length < 7 + (if h.unprotected then 0 else 2) then Bad(BadFrameLength)
            else Len(h.length)
  {
    var s := PrintAdts(h);
    LengthBits(64 * (h.channels % 4) + 4 * h.copyright, h.length, h.fullness / 64);
    FrequencyBits(h.profile, h.frequency, 2 * Bit(h.other) + h.channels / 4);
    assert s[1] % 2 == Bit(h.unprotected);
  }

  lemma LengthBits(high: nat, length: nat, low: nat)
    requires high % 4 == 0 && length < 8192 && low < 32
    ensures (high + length / 2048) % 4 * 2048 + length / 8 % 256 * 8 + (32 * (length % 8) + low) / 32 == length
  {
    assert (high + length / 2048) % 4 == length / 2048;
    assert (32 * (length % 8) + low) / 32 == length % 8;
  }

  lemma FrequencyBits(profile: nat, frequency: nat, low: nat)
    requires profile < 4 && frequency < 16 && low < 4
    ensures (64 * profile + 4 * frequency + low) / 4 % 16 == frequency
  {
    assert (64 * profile + 4 * frequency + low) / 4 == 16 * profile + frequency;
  }

  /** A FLAC block header: a flag, seven bits of kind, twenty-four of length; the first block is kind zero, none is kind 127. */
  lemma BlockReads(last: bool, kind: nat, length: nat, first: bool)
    requires kind < 128 && length < 0x100_0000
    ensures FlacBlock([128 * Bit(last) + kind] + H.Print(length, 3), first) ==
            if kind == 127 || (first && kind != 0) then BadBlock else Block(last, length)
  {
    var p := H.Print(length, 3);
    assert H.Print(length, 3) == H.Print(length / 256, 2) + [length % 256];
    assert H.Print(length / 256, 2) == H.Print(length / 65536, 1) + [length / 256 % 256];
    assert H.Print(length / 65536, 1) == [length / 65536];
    assert ([128 * Bit(last) + kind] + p)[1..] == p;
  }
}
