/** Frame, tag and block headers of framed audio (src/chunker/framed_audio/mp3.rs, adts.rs, id3.rs, flac.rs). */
module AudioFrames {
  import opened Bytes

  datatype Fault =
    | NotFramedAudio
    | BadFrameSync
    | BadFrameHeader
    | FreeFormatBitrate
    | BadFrameLength
    | BadTag
    | BadMetadataBlock
    | TrailingBytes
    | Truncated

  datatype Length = Len(bytes: nat) | Bad(fault: Fault)

  // MPEG audio: section 2.4.2.3 of ISO/IEC 11172-3.

  type Rates = t: seq<nat> | |t| == 14 && forall i :: 0 <= i < 14 ==> 8 <= t[i] <= 448 witness seq(14, _ => 8)

  const V1_LAYER_I: Rates := [32, 64, 96, 128, 160, 192, 224, 256, 288, 320, 352, 384, 416, 448]
  const V1_LAYER_II: Rates := [32, 48, 56, 64, 80, 96, 112, 128, 160, 192, 224, 256, 320, 384]
  const V1_LAYER_III: Rates := [32, 40, 48, 56, 64, 80, 96, 112, 128, 160, 192, 224, 256, 320]
  const V2_LAYER_I: Rates := [32, 48, 56, 64, 80, 96, 112, 128, 144, 160, 176, 192, 224, 256]
  const V2_OTHERS: Rates := [8, 16, 24, 32, 40, 48, 56, 64, 80, 96, 112, 128, 144, 160]

  /** Kilobits a second; versions 0, 1, 2 stand for MPEG-1, 2 and 2.5, layers 0, 1, 2 for I, II and III. */
  function Kbps(version: nat, layer: nat, index: nat): (k: nat)
    requires version < 3 && layer < 3 && 1 <= index <= 14
    ensures if version == 0 || layer == 0 then 32 <= k else 8 <= k <= 160
    ensures layer == 0 ==> k <= 448
    ensures layer > 0 ==> k <= 384
  {
    if version == 0 then
      if layer == 0 then V1_LAYER_I[index - 1] else if layer == 1 then V1_LAYER_II[index - 1] else V1_LAYER_III[index - 1]
    else if layer == 0 then V2_LAYER_I[index - 1]
    else V2_OTHERS[index - 1]
  }

  function Hertz(version: nat, index: nat): (h: Pos)
    requires version < 3 && index < 3
  {
    if version == 0 then (if index == 0 then 44_100 else if index == 1 then 48_000 else 32_000)
    else if version == 1 then (if index == 0 then 22_050 else if index == 1 then 24_000 else 16_000)
    else (if index == 0 then 11_025 else if index == 1 then 12_000 else 8_000)
  }

  const MPEG_HEADER: nat := 4

  function MpegVersion(h: seq<Byte>): Option<nat>
    requires |h| == MPEG_HEADER
  {
    var v := h[1] / 8 % 4;
    if v == 3 then Some(0) else if v == 2 then Some(1) else if v == 0 then Some(2) else None
  }

  function MpegLayer(h: seq<Byte>): Option<nat>
    requires |h| == MPEG_HEADER
  {
    var l := h[1] / 2 % 4;
    if l == 3 then Some(0) else if l == 2 then Some(1) else if l == 1 then Some(2) else None
  }

  function MpegBytes(version: nat, layer: nat, bits: nat, hertz: Pos, padding: nat): nat {
    if layer == 0 then (12 * bits / hertz + padding) * 4
    else if layer == 2 && version > 0 then 72 * bits / hertz + padding
    else 144 * bits / hertz + padding
  }

  function MpegFrameLen(h: seq<Byte>): Length
    requires |h| == MPEG_HEADER
  {
    match MpegVersion(h)
    case None => Bad(BadFrameHeader)
    case Some(version) =>
      match MpegLayer(h)
      case None => Bad(BadFrameHeader)
      case Some(layer) =>
        var bitrate := h[2] / 16;
        if bitrate == 15 then Bad(BadFrameHeader)
        else if bitrate == 0 then Bad(FreeFormatBitrate)
        else
          var rate := h[2] / 4 % 4;
          if rate == 3 then Bad(BadFrameHeader)
          else Len(MpegBytes(version, layer, Kbps(version, layer, bitrate) * 1000, Hertz(version, rate), h[2] / 2 % 2))
  }

  lemma MpegBytesBounds(version: nat, layer: nat, kbps: nat, rate: nat, padding: nat)
    requires version < 3 && layer < 3 && rate < 3 && padding < 2
    requires if version == 0 || layer == 0 then 32 <= kbps else 8 <= kbps <= 160
    requires if layer == 0 then kbps <= 448 else kbps <= 384
    ensures 24 <= MpegBytes(version, layer, kbps * 1000, Hertz(version, rate), padding) <= 2881
  {
    var bits := kbps * 1000;
    match version {
      case 0 =>
        assert 144 * bits / 48_000 <= 144 * bits / 32_000;
      case 1 =>
      case _ =>
    }
  }

  /** An MPEG audio frame is 24 to 2881 bytes long, so its four header bytes are always part of it. */
  lemma MpegFrameBounds(h: seq<Byte>)
    requires |h| == MPEG_HEADER && MpegFrameLen(h).Len?
    ensures 24 <= MpegFrameLen(h).bytes <= 2881
  {
    hide MpegBytes, Hertz, Kbps;
    var version, layer := MpegVersion(h).value, MpegLayer(h).value;
    MpegBytesBounds(version, layer, Kbps(version, layer, h[2] / 16), h[2] / 4 % 4, h[2] / 2 % 2);
  }

  // ADTS.

  const ADTS_HEADER: nat := 7

  function AdtsFrameLen(h: seq<Byte>): Length
    requires |h| == ADTS_HEADER
  {
    if h[2] / 4 % 16 == 15 then Bad(BadFrameHeader)
    else
      var length: nat := (h[3] as int) % 4 * 2048 + (h[4] as int) * 8 + (h[5] as int) / 32;
      if length < (if h[1] % 2 == 1 then 7 else 9) then Bad(BadFrameLength) else Len(length)
  }

  /** An ADTS frame is 7 to 8191 bytes long, its header included. */
  lemma AdtsFrameBounds(h: seq<Byte>)
    requires |h| == ADTS_HEADER && AdtsFrameLen(h).Len?
    ensures ADTS_HEADER <= AdtsFrameLen(h).bytes <= 8191
  {
    assert h[3] % 4 <= 3 && h[5] / 32 <= 7;
  }

  // Tags and metadata blocks.

  const ID3_HEADER: nat := 10

  /** Four seven-bit bytes. */
  function Syncsafe(s: seq<Byte>): Option<nat> {
    if s == [] then Some(0)
    else if s[|s| - 1] >= 0x80 then None
    else
      match Syncsafe(s[..|s| - 1])
      case None => None
      case Some(v) => Some(v * 128 + s[|s| - 1])
  }

  function Id3BodyLen(h: seq<Byte>): Length
    requires |h| == ID3_HEADER
  {
    if h[..3] != [73, 68, 51] then Bad(BadTag)
    else
      match Syncsafe(h[6..10])
      case None => Bad(BadTag)
      case Some(size) => Len(size + if h[5] / 16 % 2 == 1 then 10 else 0)
  }

  method ReadId3BodyLen(h: seq<Byte>) returns (r: Length)
    requires |h| == ID3_HEADER
    ensures r == Id3BodyLen(h)
  {
    if h[..3] != [73, 68, 51] {
      return Bad(BadTag);
    }
    var size: nat := 0;
    ghost var field := h[6..10];
    for i := 6 to 10
      invariant Syncsafe(field[..i - 6]) == Some(size)
    {
      assert field[..i - 5][..i - 6] == field[..i - 6] && field[i - 6] == h[i];
      if h[i] >= 0x80 {
        NotSyncsafe(field, i - 5);
        return Bad(BadTag);
      }
      size := size * 128 + h[i];
    }
    assert field[..4] == field;
    r := Len(size + if h[5] / 16 % 2 == 1 then 10 else 0);
  }

  lemma {:induction false} NotSyncsafe(s: seq<Byte>, n: nat)
    requires n <= |s| && Syncsafe(s[..n]).None?
    ensures Syncsafe(s).None?
  {
    if n == |s| {
      assert s[..n] == s;
    } else {
      var front := s[..|s| - 1];
      assert front[..n] == s[..n];
      NotSyncsafe(front, n);
    }
  }

  const FLAC_HEADER: nat := 4

  datatype Block = Block(last: bool, length: nat) | BadBlock

  function FlacBlock(h: seq<Byte>, first: bool): Block
    requires |h| == FLAC_HEADER
  {
    var kind := h[0] % 128;
    if kind == 127 || (first && kind != 0) then BadBlock
    else Block(h[0] >= 128, (h[1] as int) * 65536 + (h[2] as int) * 256 + h[3])
  }
}
