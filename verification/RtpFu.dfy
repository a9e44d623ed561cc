/** What one RTP packet says about fragmentation, and the fragmentation units of section 5.8 of
    RFC 6184 (H264) and section 4.4.3 of RFC 7798 (H265) that it is read from. */
module RtpFu {
  import opened Wire

  const RTP_HEADER_SIZE: nat := 12

  datatype Codec = H264 | H265

  datatype Info = Info(isFuStart: bool, isFuEnd: bool, nalUnitType: int)

  const Nothing := Info(false, false, -1)

  /** h264_more_info; the bit fields are spelled out arithmetically, least significant first. */
  function H264Info(payload: bytes): Info {
    if |payload| < RTP_HEADER_SIZE + 1 then Nothing
    else
      var nal := payload[RTP_HEADER_SIZE];
      if nal % 32 != 28 || |payload| < RTP_HEADER_SIZE + 2 then Nothing
      else
        var fu := payload[RTP_HEADER_SIZE + 1];
        if fu / 64 % 2 == 1 then Info(false, true, -1)
        else if fu / 128 == 1 then
          Info(true, false, fu % 32 + nal / 32 % 4 * 32 + nal / 128 * 128)
        else Nothing
  }

  /** h265_more_info; the type is never filled in. */
  function H265Info(payload: bytes): Info {
    if |payload| < RTP_HEADER_SIZE + 2 then Nothing
    else
      var nal := payload[RTP_HEADER_SIZE];
      if nal / 2 % 64 != 49 || |payload| < RTP_HEADER_SIZE + 3 then Nothing
      else
        var fu := payload[RTP_HEADER_SIZE + 2];
        if fu / 64 % 2 == 1 then Info(false, true, -1)
        else if fu / 128 == 1 then Info(true, false, -1)
        else Nothing
  }

  function MoreInfo(codec: Codec, payload: bytes): Info {
    if codec == H264 then H264Info(payload) else H265Info(payload)
  }

  /** What the parser says of any bytes at all, bit by bit: type 28 or 49 makes a fragmentation unit,
      the end bit wins over the start bit, and short packets say nothing. */
  lemma InfoIs(p: bytes)
    ensures H264Info(p).isFuEnd <==> |p| >= 14 && p[12] % 32 == 28 && p[13] / 64 % 2 == 1
    ensures H264Info(p).isFuStart <==> |p| >= 14 && p[12] % 32 == 28 && 128 <= p[13] < 192
    ensures H264Info(p).isFuStart ==>
      H264Info(p).nalUnitType == p[12] / 32 * 32 + p[13] % 32
    ensures H265Info(p).isFuEnd <==> |p| >= 15 && p[12] / 2 % 64 == 49 && p[14] / 64 % 2 == 1
    ensures H265Info(p).isFuStart <==> |p| >= 15 && p[12] / 2 % 64 == 49 && 128 <= p[14] < 192
    ensures !H264Info(p).isFuStart ==> H264Info(p).nalUnitType == -1
    ensures H265Info(p).nalUnitType == -1
  {
  }

  // ----- the sender of the RFCs -----

  datatype Chunk = Chunk(rtpHeader: bytes, data: bytes)

  /** A NAL unit as sent: in one packet, or cut into chunks that follow its header. */
  datatype Unit =
    | Whole(rtpHeader: bytes, nal: bytes)
    | Fragmented(nalHeader: bytes, chunks: seq<Chunk>)

  function HeaderSize(codec: Codec): nat {
    if codec == H264 then 1 else 2
  }

  /** The packet type that marks a fragmentation unit is not a NAL type. */
  predicate IsNalHeader(codec: Codec, nal: bytes) {
    && |nal| >= HeaderSize(codec)
    && if codec == H264 then nal[0] % 32 != 28 else nal[0] / 2 % 64 != 49
  }

  predicate IsUnit(codec: Codec, u: Unit) {
    match u
    case Whole(rtp, nal) => |rtp| == RTP_HEADER_SIZE && IsNalHeader(codec, nal)
    case Fragmented(header, chunks) =>
      && |header| == HeaderSize(codec) && IsNalHeader(codec, header)
      && |chunks| >= 2
      && forall c | c in chunks :: |c.rtpHeader| == RTP_HEADER_SIZE
  }

  function Bit(b: bool): nat {
    if b then 1 else 0
  }

  /** One fragmentation unit: the header's F, NRI (layer, TID) bits stay in the indicator, its
      type goes into the FU header beside the start and end bits. */
  function FragmentationUnit(codec: Codec, header: bytes, c: Chunk, start: bool, end: bool): bytes
    requires |header| == HeaderSize(codec)
  {
    var h := header[0];
    if codec == H264 then
      c.rtpHeader + [h / 32 * 32 + 28, Bit(start) * 128 + Bit(end) * 64 + h % 32] + c.data
    else
      c.rtpHeader
        + [h / 128 * 128 + 49 * 2 + h % 2, header[1],
           Bit(start) * 128 + Bit(end) * 64 + h / 2 % 64] + c.data
  }

  /** The layout of one H264 fragmentation unit: the indicator keeps F and NRI, the FU header holds
      start bit, end bit and type, the payload follows. */
  lemma H264FragmentBytes(header: bytes, c: Chunk, start: bool, end: bool)
    requires |header| == 1 && |c.rtpHeader| == 12
    ensures var p, h := FragmentationUnit(H264, header, c, start, end), header[0];
      && |p| == 14 + |c.data| && p[..12] == c.rtpHeader && p[14..] == c.data
      && p[12] == h - h % 32 + 28
      && p[13] == (if start then 128 else 0) + (if end then 64 else 0) + h % 32
  {
  }

  /** The layout of one H265 fragmentation unit: likewise, with a second header octet. */
  lemma H265FragmentBytes(header: bytes, c: Chunk, start: bool, end: bool)
    requires |header| == 2 && |c.rtpHeader| == 12
    ensures var p, h := FragmentationUnit(H265, header, c, start, end), header[0];
      && |p| == 15 + |c.data| && p[..12] == c.rtpHeader && p[15..] == c.data
      && p[12] == h - h % 128 + 98 + h % 2 && p[13] == header[1]
      && p[14] == (if start then 128 else 0) + (if end then 64 else 0) + h / 2 % 64
  {
  }

  function Packets(codec: Codec, u: Unit): (ps: seq<bytes>)
    requires IsUnit(codec, u)
    ensures |ps| == if u.Whole? then 1 else |u.chunks|
  {
    match u
    case Whole(rtp, nal) => [rtp + nal]
    case Fragmented(header, chunks) =>
      seq(|chunks|, i requires 0 <= i < |chunks| =>
        FragmentationUnit(codec, header, chunks[i], i == 0, i == |chunks| - 1))
  }

  lemma WholeSaysNothing(codec: Codec, u: Unit)
    requires u.Whole? && IsUnit(codec, u)
    ensures MoreInfo(codec, Packets(codec, u)[0]) == Nothing
  {
    assert Packets(codec, u)[0][RTP_HEADER_SIZE] == u.nal[0];
  }

  lemma H264FragmentMarks(header: bytes, c: Chunk, start: bool, end: bool)
    requires |header| == 1 && |c.rtpHeader| == RTP_HEADER_SIZE && !(start && end)
    ensures H264Info(FragmentationUnit(H264, header, c, start, end)) ==
      Info(start, end, if start then header[0] else -1)
  {
    hide Bit;
    var p, h := FragmentationUnit(H264, header, c, start, end), header[0];
    assert p[RTP_HEADER_SIZE] == h / 32 * 32 + 28;
    assert p[RTP_HEADER_SIZE + 1] == Bit(start) * 128 + Bit(end) * 64 + h % 32;
    H264Bits(h, start, end);
  }

  lemma H264Bits(h: byte, start: bool, end: bool)
    requires !(start && end)
    ensures var fu := Bit(start) * 128 + Bit(end) * 64 + h % 32;
      (fu / 64 % 2 == 1 <==> end) && (fu / 128 == 1 <==> start) && fu % 32 == h % 32
    ensures var nal := h / 32 * 32 + 28;
      nal % 32 == 28 && h % 32 + nal / 32 % 4 * 32 + nal / 128 * 128 == h
  {
    assert (h / 32 * 32 + 28) / 32 == h / 32 && (h / 32 * 32 + 28) / 128 == h / 128;
    assert h == h % 32 + h / 32 % 4 * 32 + h / 128 * 128;
  }

  lemma H265FragmentMarks(header: bytes, c: Chunk, start: bool, end: bool)
    requires |header| == 2 && |c.rtpHeader| == RTP_HEADER_SIZE && !(start && end)
    ensures H265Info(FragmentationUnit(H265, header, c, start, end)) == Info(start, end, -1)
  {
    var p, h := FragmentationUnit(H265, header, c, start, end), header[0];
    assert p[RTP_HEADER_SIZE] == h / 128 * 128 + 98 + h % 2;
    assert p[RTP_HEADER_SIZE + 2] == Bit(start) * 128 + Bit(end) * 64 + h / 2 % 64;
    assert (h / 128 * 128 + 98 + h % 2) / 2 == h / 128 * 64 + 49;
  }

  /** The parser marks the start exactly on the first and the end exactly on the last packet of a
      fragmented NAL unit, nothing on whole ones, and for H264 rebuilds the header octet. */
  lemma UnitMarks(codec: Codec, u: Unit, i: nat)
    requires IsUnit(codec, u) && i < |Packets(codec, u)|
    ensures MoreInfo(codec, Packets(codec, u)[i]) ==
      if u.Whole? then Nothing
      else Info(i == 0, i == |u.chunks| - 1,
                if i == 0 && codec == H264 then u.nalHeader[0] else -1)
  {
    if u.Whole? {
      WholeSaysNothing(codec, u);
    } else {
      var c := u.chunks[i];
      assert c in u.chunks;
      if codec == H264 {
        H264FragmentMarks(u.nalHeader, c, i == 0, i == |u.chunks| - 1);
      } else {
        H265FragmentMarks(u.nalHeader, c, i == 0, i == |u.chunks| - 1);
      }
    }
  }
}
