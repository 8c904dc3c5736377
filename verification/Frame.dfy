/** panctl/frame.c: the mux protocol's wire format. */
module Frame {
  import opened Bytes

  datatype Option<+T> = None | Some(value: T)

  const PROTO_VERSION: byte := 0x00
  const FRAME_HEADER_SIZE := 6
  const FRAME_MAX_PAYLOAD := 65535

  const TYPE_HELLO: byte := 0x01
  const TYPE_BYE: byte := 0x02
  const TYPE_PING: byte := 0x03
  const TYPE_PONG: byte := 0x04
  const TYPE_TCP_OPEN: byte := 0x10
  const TYPE_TCP_OPEN_ACK: byte := 0x11
  const TYPE_TCP_DATA: byte := 0x12
  const TYPE_TCP_CLOSE_WR: byte := 0x13
  const TYPE_TCP_RST: byte := 0x14
  const TYPE_TCP_WINDOW: byte := 0x15
  const TYPE_UDP_BIND: byte := 0x20
  const TYPE_UDP_BIND_ACK: byte := 0x21
  const TYPE_UDP_PACKET: byte := 0x22
  const TYPE_UDP_CLOSE: byte := 0x23

  const ADDR_TYPE_IPV4: byte := 0x01
  const ADDR_TYPE_IPV6: byte := 0x02
  const ADDR_TYPE_DOMAIN: byte := 0x03

  const RST_REASON_PEER_RESET: u16 := 0x0001
  const RST_REASON_OTHER: u16 := 0x00FF

  datatype FrameHeader = FrameHeader(ver: byte, kind: byte, streamId: u16, length: u16)

  datatype HelloPayload = HelloPayload(protoVer: byte, flags: byte, maxStreams: u16, initialWinKib: u16)

  /** struct endpoint; addr holds its addr_len leading address bytes. */
  datatype Endpoint = Endpoint(addrType: byte, port: u16, addr: seq<byte>)

  // ----- header -----

  function HeaderBytes(kind: byte, streamId: u16, length: u16): (s: seq<byte>)
    ensures |s| == FRAME_HEADER_SIZE
  {
    [PROTO_VERSION, kind] + U16Be(streamId) + U16Be(length)
  }

  function DecodeHeader(s: seq<byte>): FrameHeader
    requires |s| >= FRAME_HEADER_SIZE
  {
    FrameHeader(s[0], s[1], ReadU16(s, 2), ReadU16(s, 4))
  }

  method EncodeHeader(buf: array<byte>, kind: byte, streamId: u16, length: u16)
    requires buf.Length >= FRAME_HEADER_SIZE
    modifies buf
    ensures buf[..] == Overwrite(old(buf[..]), 0, HeaderBytes(kind, streamId, length))
  {
    buf[0] := PROTO_VERSION;
    buf[1] := kind;
    WriteU16(buf, 2, streamId);
    WriteU16(buf, 4, length);
  }

  /** Decoding undoes encoding; only a current-version header is the image of an encoding. */
  lemma HeaderRoundTrip(kind: byte, streamId: u16, length: u16, s: seq<byte>)
    requires |s| == FRAME_HEADER_SIZE
    ensures DecodeHeader(HeaderBytes(kind, streamId, length)) == FrameHeader(PROTO_VERSION, kind, streamId, length)
    ensures s[0] == PROTO_VERSION <==>
            (var h := DecodeHeader(s); HeaderBytes(h.kind, h.streamId, h.length) == s)
  {
    U16RoundTrip(streamId, s[2..4]);
    U16RoundTrip(length, s[4..6]);
  }

  // ----- HELLO -----

  function HelloBytes(h: HelloPayload): (s: seq<byte>)
    ensures |s| == 6
  {
    [h.protoVer, h.flags] + U16Be(h.maxStreams) + U16Be(h.initialWinKib)
  }

  function DecodeHello(s: seq<byte>): Option<HelloPayload>
  {
    if |s| != 6 then None else Some(HelloPayload(s[0], s[1], ReadU16(s, 2), ReadU16(s, 4)))
  }

  method EncodeHello(buf: array<byte>, h: HelloPayload)
    requires buf.Length >= 6
    modifies buf
    ensures buf[..] == Overwrite(old(buf[..]), 0, HelloBytes(h))
  {
    buf[0] := h.protoVer;
    buf[1] := h.flags;
    WriteU16(buf, 2, h.maxStreams);
    WriteU16(buf, 4, h.initialWinKib);
  }

  /** The decoder accepts exactly the images of the encoder. */
  lemma HelloRoundTrip(h: HelloPayload, s: seq<byte>)
    ensures DecodeHello(HelloBytes(h)) == Some(h)
    ensures DecodeHello(s).Some? <==> |s| == 6
    ensures DecodeHello(s).Some? ==> HelloBytes(DecodeHello(s).value) == s
  {
    U16RoundTrip(h.maxStreams, U16Be(0));
    if |s| == 6 {
      U16RoundTrip(0, s[2..4]);
      U16RoundTrip(0, s[4..6]);
    }
  }

  // ----- endpoint -----

  function EndpointBytes(ep: Endpoint): (s: seq<byte>)
    requires |ep.addr| <= 16
    ensures |s| == 4 + |ep.addr|
  {
    [ep.addrType] + U16Be(ep.port) + [|ep.addr|] + ep.addr
  }

  /** endpoint_decode: the endpoint and the number of bytes consumed. */
  function DecodeEndpoint(s: seq<byte>, offset: nat): (r: Option<(Endpoint, nat)>)
    ensures r.Some? ==> offset + r.value.1 <= |s|
  {
    if offset + 4 > |s| then None
    else
      var addrLen := s[offset + 3];
      if addrLen > 16 then None
      else if offset + 4 + addrLen > |s| then None
      else Some((Endpoint(s[offset], ReadU16(s, offset + 1), s[offset + 4..offset + 4 + addrLen]), 4 + addrLen))
  }

  /** endpoint_encode into a buffer whose capacity is its length. */
  method EncodeEndpoint(buf: array<byte>, ep: Endpoint) returns (ok: bool, n: nat)
    modifies buf
    ensures ok <==> |ep.addr| <= 16 && 4 + |ep.addr| <= buf.Length
    ensures ok ==> n == 4 + |ep.addr| && buf[..] == Overwrite(old(buf[..]), 0, EndpointBytes(ep))
    ensures !ok ==> n == 0 && buf[..] == old(buf[..])
  {
    ok, n := false, 0;
    if |ep.addr| > 16 {
      return;
    }
    var need := 4 + |ep.addr|;
    if buf.Length < need {
      return;
    }
    ghost var o := buf[..];
    ghost var head := [ep.addrType] + U16Be(ep.port) + [|ep.addr|];
    buf[0] := ep.addrType;
    WriteU16(buf, 1, ep.port);
    buf[3] := |ep.addr|;
    assert buf[..] == Overwrite(o, 0, head);
    CopyInto(buf, 4, ep.addr);
    OverwriteAppend(o, 0, head, ep.addr);
    ok, n := true, need;
  }

  /** Decoding an encoded endpoint, whatever follows it, gives it back and consumes just it. */
  lemma EndpointRoundTrip(ep: Endpoint, tail: seq<byte>)
    requires |ep.addr| <= 16
    ensures DecodeEndpoint(EndpointBytes(ep) + tail, 0) == Some((ep, |EndpointBytes(ep)|))
  {
    var s := EndpointBytes(ep) + tail;
    U16RoundTrip(ep.port, U16Be(0));
    assert s[3] == |ep.addr|;
    assert s[4..4 + |ep.addr|] == ep.addr;
  }

  /** Conversely, whatever the decoder accepts is the encoding of what it returns. */
  lemma EndpointDecodeIsEncoding(s: seq<byte>)
    requires DecodeEndpoint(s, 0).Some?
    ensures var (ep, n) := DecodeEndpoint(s, 0).value;
            |ep.addr| <= 16 && n == 4 + |ep.addr| && s[..n] == EndpointBytes(ep)
  {
    U16RoundTrip(0, s[1..3]);
  }
}
