/** The wire format in numbers: every frame the senders write, byte by byte. */
module WireNumbers {
  import opened Bytes
  import opened Frame
  import opened MuxSpec
  import opened MuxSession

  function Hi(v: u16): byte { v / 0x100 }

  function Lo(v: u16): byte { v % 0x100 }

  /** A version 0 frame of the given type. */
  function Layout(kind: byte, sid: u16, len: u16): seq<byte> { [0, kind, Hi(sid), Lo(sid), Hi(len), Lo(len)] }

  lemma FrameLayout(kind: byte, sid: u16, p: seq<byte>)
    requires |p| <= FRAME_MAX_PAYLOAD
    ensures FrameOf(kind, sid, p) == Layout(kind, sid, |p|) + p
  {
  }

  lemma ControlFrames(h: HelloPayload, v: u16, nonce: seq<byte>)
    requires |nonce| <= FRAME_MAX_PAYLOAD
    ensures Encode(Hello(h)) == Layout(0x01, 0, 6) + [h.protoVer, h.flags, Hi(h.maxStreams), Lo(h.maxStreams),
                                                      Hi(h.initialWinKib), Lo(h.initialWinKib)]
    ensures Encode(Bye(v)) == Layout(0x02, 0, 2) + [Hi(v), Lo(v)]
    ensures Encode(Ping(nonce)) == Layout(0x03, 0, |nonce|) + nonce
    ensures Encode(Pong(nonce)) == Layout(0x04, 0, |nonce|) + nonce
  {
    FrameLayout(0x01, 0, PayloadBytes(Hello(h)));
    FrameLayout(0x02, 0, PayloadBytes(Bye(v)));
    FrameLayout(0x03, 0, nonce);
    FrameLayout(0x04, 0, nonce);
  }

  function EndpointLayout(ep: Endpoint): seq<byte>
    requires |ep.addr| <= 16
  {
    [ep.addrType, Hi(ep.port), Lo(ep.port), |ep.addr|] + ep.addr
  }

  lemma TcpFrames(sid: u16, dst: Endpoint, v: u16, credit: u32, data: seq<byte>)
    requires |dst.addr| <= 16 && 0 < |data| <= FRAME_MAX_PAYLOAD
    ensures Encode(TcpOpen(sid, dst)) == Layout(0x10, sid, 4 + |dst.addr|) + EndpointLayout(dst)
    ensures Encode(TcpOpenAck(sid, v)) == Layout(0x11, sid, 2) + [Hi(v), Lo(v)]
    ensures Encode(TcpData(sid, data)) == Layout(0x12, sid, |data|) + data
    ensures Encode(TcpCloseWr(sid)) == Layout(0x13, sid, 0)
    ensures Encode(TcpRst(sid, v)) == Layout(0x14, sid, 2) + [Hi(v), Lo(v)]
    ensures Encode(TcpWindow(sid, credit)) == Layout(0x15, sid, 4)
              + [credit / 0x100_0000, credit / 0x1_0000 % 0x100, credit / 0x100 % 0x100, credit % 0x100]
  {
    FrameLayout(0x10, sid, EndpointBytes(dst));
    FrameLayout(0x11, sid, U16Be(v));
    FrameLayout(0x12, sid, data);
    FrameLayout(0x13, sid, []);
    FrameLayout(0x14, sid, U16Be(v));
    FrameLayout(0x15, sid, U32Be(credit));
  }

  lemma UdpFrames(sid: u16, v: u16, remote: Endpoint, datagram: seq<byte>)
    requires |remote.addr| <= 16 && 4 + |remote.addr| + |datagram| <= FRAME_MAX_PAYLOAD
    ensures Encode(UdpBind(sid)) == Layout(0x20, sid, 0)
    ensures Encode(UdpBindAck(sid, v)) == Layout(0x21, sid, 2) + [Hi(v), Lo(v)]
    ensures Encode(UdpPacket(sid, remote, datagram))
         == Layout(0x22, sid, 4 + |remote.addr| + |datagram|) + (EndpointLayout(remote) + datagram)
    ensures Encode(UdpClose(sid)) == Layout(0x23, sid, 0)
  {
    FrameLayout(0x20, sid, []);
    FrameLayout(0x21, sid, U16Be(v));
    FrameLayout(0x22, sid, PayloadBytes(UdpPacket(sid, remote, datagram)));
    FrameLayout(0x23, sid, []);
  }

  /** What is sent first on a new channel, and the reasons and address types in use. */
  lemma Constants()
    ensures Encode(Hello(OUR_HELLO)) == [0, 0x01, 0, 0, 0, 6] + [0, 0, 1, 0, 0, 64]
    ensures RST_REASON_PEER_RESET == 0x0001 && RST_REASON_OTHER == 0x00FF
    ensures ADDR_TYPE_IPV4 == 1 && ADDR_TYPE_IPV6 == 2 && ADDR_TYPE_DOMAIN == 3
  {
    ControlFrames(OUR_HELLO, 0, []);
  }
}
