/** NRXP frames and their wire form (`engine/src/nrxp/frame.rs`). */
module Frames {
  import opened Wrappers
  import opened Bytes

  datatype FrameType =
    | Connect | Data | Close | Heartbeat | UdpConnect | UdpData | Diag | Credit | Cover

  function TypeCode(t: FrameType): (c: byte)
  {
    match t
    case Connect => 0x00
    case Data => 0x01
    case Close => 0x02
    case Heartbeat => 0x03
    case UdpConnect => 0x04
    case UdpData => 0x05
    case Diag => 0x06
    case Credit => 0x07
    case Cover => 0x08
  }

  function TypeOf(c: byte): (t: Option<FrameType>)
  {
    match c
    case 0x00 => Some(Connect)
    case 0x01 => Some(Data)
    case 0x02 => Some(Close)
    case 0x03 => Some(Heartbeat)
    case 0x04 => Some(UdpConnect)
    case 0x05 => Some(UdpData)
    case 0x06 => Some(Diag)
    case 0x07 => Some(Credit)
    case 0x08 => Some(Cover)
    case _ => None
  }

  /** A byte is a known type exactly when it is that type's code. */
  lemma TypeCodes(t: FrameType, c: byte)
    ensures TypeOf(c) == Some(t) <==> TypeCode(t) == c
  {}

  type Tag = s: bytes | |s| == 16 witness [0, 0, 0, 0, 0, 0, 0, 0, 0, 0, 0, 0, 0, 0, 0, 0]

  const ZERO_TAG: Tag := [0, 0, 0, 0, 0, 0, 0, 0, 0, 0, 0, 0, 0, 0, 0, 0]

  /** What a caller asks to be sent. */
  datatype Item = Item(streamId: u32, frameType: FrameType, payload: bytes)

  datatype FrameHeader = FrameHeader(authTag: Tag, streamId: u32, payloadLen: u16, paddingLen: u16, frameType: FrameType)

  datatype Frame = Frame(header: FrameHeader, payload: bytes)

  const FRAME_HEADER_SIZE: nat := 25
  const MAX_RECORD_PLAINTEXT: nat := 16385

  function WireLen(payloadLen: nat, paddingLen: nat): (n: nat)
  {
    FRAME_HEADER_SIZE + payloadLen + paddingLen
  }

  // ---------------------------------------------------------------- writing

  function HeaderBytes(h: FrameHeader): (s: bytes)
    ensures |s| == FRAME_HEADER_SIZE
  {
    h.authTag + U32(h.streamId) + [TypeCode(h.frameType)] + U16(h.payloadLen) + U16(h.paddingLen)
  }

  /** The header an item gets; a payload length that does not fit 16 bits is truncated. */
  function HeaderFor(tag: Tag, item: Item, paddingLen: u16): FrameHeader
  {
    FrameHeader(tag, item.streamId, |item.payload| % U16_SIZE, paddingLen, item.frameType)
  }

  function FrameBytes(tag: Tag, item: Item, padding: bytes): (s: bytes)
    requires |padding| < U16_SIZE
    ensures |s| == WireLen(|item.payload|, |padding|)
  {
    HeaderBytes(HeaderFor(tag, item, |padding|)) + item.payload + padding
  }

  method CopyInto(target: array<byte>, at: nat, s: bytes)
    requires at + |s| <= target.Length
    modifies target
    ensures target[..] == old(target[..at]) + s + old(target[at + |s|..])
  {
    for i := 0 to |s|
      invariant forall k :: 0 <= k < target.Length ==>
                  target[k] == if at <= k < at + i then s[k - at] else old(target[k])
    {
      target[at + i] := s[i];
    }
  }

  /** Serialises a frame: header assembled in a fixed buffer, payload, then `paddingLen` random bytes. */
  method IntoBytes(item: Item, tag: Tag, paddingLen: u16) returns (wire: bytes)
    ensures |wire| == WireLen(|item.payload|, paddingLen)
    ensures wire == FrameBytes(tag, item, wire[|wire| - paddingLen..])
  {
    hide U32, U16;
    var payloadLen: u16 := |item.payload| % U16_SIZE;
    var header := new byte[FRAME_HEADER_SIZE](_ => 0);
    CopyInto(header, 0, tag);
    CopyInto(header, 16, U32(item.streamId));
    header[20] := TypeCode(item.frameType);
    CopyInto(header, 21, U16(payloadLen));
    CopyInto(header, 23, U16(paddingLen));
    assert header[..] == HeaderBytes(HeaderFor(tag, item, paddingLen));

    wire := header[..] + item.payload;
    if paddingLen > 0 {
      var noise := RandomBytes(paddingLen);
      wire := wire + noise;
      assert wire[|wire| - paddingLen..] == noise;
    }
  }

  // ---------------------------------------------------------------- reading

  datatype Parsed<T> = NeedMore | Bad(byte: byte) | Got(value: T, rest: bytes)

  function ParseHeader(s: bytes): (r: Parsed<FrameHeader>)
  {
    if |s| < FRAME_HEADER_SIZE then NeedMore
    else
      match TypeOf(s[20])
      case None => Bad(s[20])
      case Some(t) => Got(FrameHeader(s[..16], ReadU32(s[16..20]), ReadU16(s[21..23]), ReadU16(s[23..25]), t), s[25..])
  }

  predicate CanParseFrame(s: bytes)
  {
    |s| >= FRAME_HEADER_SIZE && |s| >= FRAME_HEADER_SIZE + ReadU16(s[21..23]) + ReadU16(s[23..25])
  }

  function ParseFrame(s: bytes): (r: Parsed<Frame>)
  {
    if !CanParseFrame(s) then NeedMore
    else
      match ParseHeader(s)
      case NeedMore => NeedMore
      case Bad(b) => Bad(b)
      case Got(h, rest) => Got(Frame(h, rest[..h.payloadLen]), rest[h.payloadLen + h.paddingLen..])
  }

  method ParseHeaderFrom(buffer: BytesMut) returns (r: Result<Option<FrameHeader>, byte>)
    modifies buffer
    ensures match ParseHeader(old(buffer.data))
            case NeedMore => r == Ok(None) && buffer.data == old(buffer.data)
            case Bad(b) => r == Err(b) && buffer.data == old(buffer.data)
            case Got(h, rest) => r == Ok(Some(h)) && buffer.data == rest
  {
    if |buffer.data| < FRAME_HEADER_SIZE {
      return Ok(None);
    }
    var slice := buffer.data[..FRAME_HEADER_SIZE];
    assert slice[..16] == buffer.data[..16] && slice[16..20] == buffer.data[16..20];
    assert slice[21..23] == buffer.data[21..23] && slice[23..25] == buffer.data[23..25];
    var authTag := slice[..16];
    var streamId := ReadU32(slice[16..20]);
    var frameType := TypeOf(slice[20]);
    if frameType.None? {
      return Err(slice[20]);
    }
    var payloadLen := ReadU16(slice[21..23]);
    var paddingLen := ReadU16(slice[23..25]);
    buffer.Advance(FRAME_HEADER_SIZE);
    r := Ok(Some(FrameHeader(authTag, streamId, payloadLen, paddingLen, frameType.value)));
  }

  method ParseFrom(buffer: BytesMut) returns (r: Result<Option<Frame>, byte>)
    modifies buffer
    ensures match ParseFrame(old(buffer.data))
            case NeedMore => r == Ok(None) && buffer.data == old(buffer.data)
            case Bad(b) => r == Err(b) && buffer.data == old(buffer.data)
            case Got(f, rest) => r == Ok(Some(f)) && buffer.data == rest
  {
    if !CanParseFrame(buffer.data) {
      return Ok(None);
    }
    var header := ParseHeaderFrom(buffer);
    if header.Err? {
      return Err(header.error);
    }
    var h := header.value.value;
    var payload := buffer.SplitTo(h.payloadLen);
    buffer.Advance(h.paddingLen);
    r := Ok(Some(Frame(h, payload)));
  }

  // ------------------------------------------------------------- round trip

  lemma HeaderFields(h: FrameHeader, rest: bytes)
    ensures var s := HeaderBytes(h) + rest;
            && s[..16] == h.authTag && ReadU32(s[16..20]) == h.streamId && s[20] == TypeCode(h.frameType)
            && ReadU16(s[21..23]) == h.payloadLen && ReadU16(s[23..25]) == h.paddingLen && s[25..] == rest
  {
    var s := HeaderBytes(h) + rest;
    assert s[16..20] == U32(h.streamId) + [];
    assert s[21..23] == U16(h.payloadLen) + [];
    assert s[23..25] == U16(h.paddingLen) + [];
    U32RoundTrip(h.streamId, []);
    U16RoundTrip(h.payloadLen, []);
    U16RoundTrip(h.paddingLen, []);
  }

  /** A serialised header parses back to itself, leaving what follows. */
  lemma HeaderRoundTrip(h: FrameHeader, rest: bytes)
    ensures ParseHeader(HeaderBytes(h) + rest) == Got(h, rest)
  {
    HeaderFields(h, rest);
    TypeCodes(h.frameType, TypeCode(h.frameType));
  }

  /** What arrives is the payload cut to its length modulo 2^16; the rest of it is read as whatever
      comes next in the buffer. */
  lemma FrameParses(tag: Tag, item: Item, padding: bytes, rest: bytes)
    requires |padding| < U16_SIZE
    ensures var n := |item.payload| % U16_SIZE;
            ParseFrame(FrameBytes(tag, item, padding) + rest)
            == Got(Frame(HeaderFor(tag, item, |padding|), item.payload[..n]), (item.payload + padding + rest)[n + |padding|..])
  {
    var h := HeaderFor(tag, item, |padding|);
    var body := item.payload + padding + rest;
    assert FrameBytes(tag, item, padding) + rest == HeaderBytes(h) + body;
    HeaderFields(h, body);
    HeaderRoundTrip(h, body);
    assert body[..h.payloadLen] == item.payload[..h.payloadLen];
  }

  /** The frame survives, padding invisible and nothing left over, exactly when its length fits. */
  lemma FrameRoundTrip(tag: Tag, item: Item, padding: bytes, rest: bytes)
    requires |padding| < U16_SIZE
    ensures ParseFrame(FrameBytes(tag, item, padding) + rest)
            == Got(Frame(HeaderFor(tag, item, |padding|), item.payload), rest)
            <==> |item.payload| < U16_SIZE
  {
    FrameParses(tag, item, padding, rest);
    var n := |item.payload| % U16_SIZE;
    if |item.payload| < U16_SIZE {
      assert item.payload[..n] == item.payload;
      assert (item.payload + padding + rest)[n + |padding|..] == rest;
    } else {
      assert |item.payload[..n]| < |item.payload|;
    }
  }

  /** Reading one frame never depends on bytes beyond it. */
  lemma ParseFrameIsLocal(s: bytes, more: bytes)
    requires ParseFrame(s).Got?
    ensures ParseFrame(s + more) == Got(ParseFrame(s).value, ParseFrame(s).rest + more)
  {
    var t := s + more;
    assert t[..16] == s[..16] && t[16..20] == s[16..20] && t[21..23] == s[21..23] && t[23..25] == s[23..25];
    var h := ParseHeader(s).value;
    assert t[25..] == s[25..] + more;
    assert t[25..][..h.payloadLen] == s[25..][..h.payloadLen];
  }

  // ------------------------------------------------------------ the grammar

  /** A frame on the wire with any type byte, known or not. */
  function RawFrame(tag: Tag, streamId: u32, code: byte, payload: bytes, padding: bytes): bytes
  {
    tag + U32(streamId) + [code] + U16(|payload|) + U16(|padding|) + (payload + padding)
  }

  lemma RawFrameFields(tag: Tag, streamId: u32, code: byte, payload: bytes, padding: bytes, rest: bytes)
    requires |payload| < U16_SIZE && |padding| < U16_SIZE
    ensures var s := RawFrame(tag, streamId, code, payload, padding) + rest;
            && |s| == FRAME_HEADER_SIZE + |payload| + |padding| + |rest|
            && s[..16] == tag && ReadU32(s[16..20]) == streamId && s[20] == code
            && ReadU16(s[21..23]) == |payload| && ReadU16(s[23..25]) == |padding| && s[25..] == payload + padding + rest
  {
    var s := RawFrame(tag, streamId, code, payload, padding) + rest;
    assert s[16..20] == U32(streamId) + [];
    assert s[21..23] == U16(|payload|) + [];
    assert s[23..25] == U16(|padding|) + [];
    U32RoundTrip(streamId, []);
    U16RoundTrip(|payload|, []);
    U16RoundTrip(|padding|, []);
  }

  /** What a whole frame parses to: itself, or a complaint about its type. */
  lemma RawFrameParses(tag: Tag, streamId: u32, code: byte, payload: bytes, padding: bytes, rest: bytes)
    requires |payload| < U16_SIZE && |padding| < U16_SIZE
    ensures ParseFrame(RawFrame(tag, streamId, code, payload, padding) + rest)
            == match TypeOf(code)
               case None => Bad(code)
               case Some(t) => Got(Frame(FrameHeader(tag, streamId, |payload|, |padding|, t), payload), rest)
  {
    hide RawFrame, ReadU32, ReadU16;
    RawFrameFields(tag, streamId, code, payload, padding, rest);
    var body := payload + padding + rest;
    assert body[..|payload|] == payload && body[|payload| + |padding|..] == rest;
  }

  /** Whatever is not waited for begins with a whole frame. */
  lemma NotWaitingIsRaw(s: bytes) returns (tag: Tag, streamId: u32, code: byte, payload: bytes, padding: bytes, rest: bytes)
    requires ParseFrame(s) != NeedMore
    ensures |payload| < U16_SIZE && |padding| < U16_SIZE
    ensures s == RawFrame(tag, streamId, code, payload, padding) + rest
  {
    var n, p := ReadU16(s[21..23]), ReadU16(s[23..25]);
    tag, streamId, code := s[..16], ReadU32(s[16..20]), s[20];
    payload, padding, rest := s[25..25 + n], s[25 + n..25 + n + p], s[25 + n + p..];
    U32Back(s[16..20]);
    U16Back(s[21..23]);
    U16Back(s[23..25]);
    hide U32, U16, ReadU32, ReadU16, ParseHeader;
    HeadSplits(s);
    TailSplits(s, n, p);
  }

  lemma HeadSplits(s: bytes)
    requires |s| >= 25
    ensures s[..25] == s[..16] + s[16..20] + [s[20]] + s[21..23] + s[23..25]
  {}

  lemma TailSplits(s: bytes, n: nat, p: nat)
    requires 25 + n + p <= |s|
    ensures s == s[..25] + (s[25..25 + n] + s[25 + n..25 + n + p]) + s[25 + n + p..]
  {}

  /** The parser waits exactly while the buffer does not begin with a whole frame. */
  lemma WaitsIff(s: bytes)
    ensures ParseFrame(s) == NeedMore
            <==> !exists tag, streamId: u32, code, payload, padding, rest ::
                   |payload| < U16_SIZE && |padding| < U16_SIZE && s == RawFrame(tag, streamId, code, payload, padding) + rest
  {
    hide ParseFrame, RawFrame;
    if ParseFrame(s) != NeedMore {
      var tag, streamId, code, payload, padding, rest := NotWaitingIsRaw(s);
    }
    forall tag, streamId: u32, code, payload, padding, rest
      | |payload| < U16_SIZE && |padding| < U16_SIZE && s == RawFrame(tag, streamId, code, payload, padding) + rest
      ensures ParseFrame(s) != NeedMore
    {
      RawFrameParses(tag, streamId, code, payload, padding, rest);
    }
  }
}
