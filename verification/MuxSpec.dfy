/** What the mux stream means, independently of how it arrives: messages, their frames,
    and the one-shot parse of a whole byte stream. */
module MuxSpec {
  import opened Bytes
  import opened Frame

  datatype Message =
    | Hello(hello: HelloPayload)
    | Bye(reason: u16)
    | Ping(nonce: seq<byte>)
    | Pong(nonce: seq<byte>)
    | TcpOpen(sid: u16, dst: Endpoint)
    | TcpOpenAck(sid: u16, status: u16)
    | TcpData(sid: u16, data: seq<byte>)
    | TcpCloseWr(sid: u16)
    | TcpRst(sid: u16, reason: u16)
    | TcpWindow(sid: u16, credit: u32)
    | UdpBind(sid: u16)
    | UdpBindAck(sid: u16, status: u16)
    | UdpPacket(sid: u16, remote: Endpoint, datagram: seq<byte>)
    | UdpClose(sid: u16)

  datatype Violation =
    | VersionMismatch
    | MalformedHello
    | OpenAckTooShort
    | EmptyData
    | WindowTooShort
    | BindAckTooShort
    | MalformedEndpoint
    | UnexpectedFrame
    | UnknownType

  datatype Dispatched = Deliver(msg: Message) | Violate(what: Violation)

  // ----- inbound -----

  /** dispatch_frame: what a complete frame is reported as. */
  function Dispatch(h: FrameHeader, p: seq<byte>): Dispatched
    requires |p| == h.length
  {
    if h.ver != PROTO_VERSION then Violate(VersionMismatch)
    else if h.kind == TYPE_HELLO then
      (match DecodeHello(p)
       case None => Violate(MalformedHello)
       case Some(hp) => Deliver(Hello(hp)))
    else if h.kind == TYPE_BYE then Deliver(Bye(if |p| >= 2 then ReadU16(p, 0) else 0))
    else if h.kind == TYPE_PING then Deliver(Ping(p))
    else if h.kind == TYPE_PONG then Deliver(Pong(p))
    else if h.kind == TYPE_TCP_OPEN_ACK then
      if |p| < 2 then Violate(OpenAckTooShort) else Deliver(TcpOpenAck(h.streamId, ReadU16(p, 0)))
    else if h.kind == TYPE_TCP_DATA then
      if |p| == 0 then Violate(EmptyData) else Deliver(TcpData(h.streamId, p))
    else if h.kind == TYPE_TCP_CLOSE_WR then Deliver(TcpCloseWr(h.streamId))
    else if h.kind == TYPE_TCP_RST then
      Deliver(TcpRst(h.streamId, if |p| >= 2 then ReadU16(p, 0) else 0))
    else if h.kind == TYPE_TCP_WINDOW then
      if |p| < 4 then Violate(WindowTooShort) else Deliver(TcpWindow(h.streamId, ReadU32(p, 0)))
    else if h.kind == TYPE_UDP_BIND_ACK then
      if |p| < 2 then Violate(BindAckTooShort) else Deliver(UdpBindAck(h.streamId, ReadU16(p, 0)))
    else if h.kind == TYPE_UDP_PACKET then
      (match DecodeEndpoint(p, 0)
       case None => Violate(MalformedEndpoint)
       case Some((ep, n)) => Deliver(UdpPacket(h.streamId, ep, p[n..])))
    else if h.kind == TYPE_UDP_CLOSE then Deliver(UdpClose(h.streamId))
    else if h.kind == TYPE_TCP_OPEN || h.kind == TYPE_UDP_BIND then Violate(UnexpectedFrame)
    else Violate(UnknownType)
  }

  /** The number of bytes of the frame at the head of s, once its header is there. */
  function FrameSize(s: seq<byte>): (n: nat)
    requires |s| >= FRAME_HEADER_SIZE
    ensures FRAME_HEADER_SIZE <= n <= FRAME_HEADER_SIZE + FRAME_MAX_PAYLOAD
  {
    FRAME_HEADER_SIZE + ReadU16(s, 4)
  }

  predicate HasFrame(s: seq<byte>) {
    |s| >= FRAME_HEADER_SIZE && |s| >= FrameSize(s)
  }

  function DispatchHead(s: seq<byte>): Dispatched
    requires HasFrame(s)
  {
    Dispatch(DecodeHeader(s), s[FRAME_HEADER_SIZE..FrameSize(s)])
  }

  /** The messages of a stream, in order; the violation that ends it, if any; and the bytes
      from the first incomplete or violating frame on. */
  datatype Parsed = Parsed(msgs: seq<Message>, rest: seq<byte>, violation: Option<Violation>)

  function After(msgs: seq<Message>, p: Parsed): Parsed { p.(msgs := msgs + p.msgs) }

  lemma AfterAfter(m: seq<Message>, n: seq<Message>, p: Parsed)
    ensures After(m, After(n, p)) == After(m + n, p)
  {
    assert m + (n + p.msgs) == (m + n) + p.msgs;
  }

  lemma AfterNothing(p: Parsed)
    ensures After([], p) == p
  {
    assert [] + p.msgs == p.msgs;
  }

  function Parse(s: seq<byte>): Parsed {
    if !HasFrame(s) then Parsed([], s, None)
    else match DispatchHead(s)
      case Violate(what) => Parsed([], s, Some(what))
      case Deliver(msg) => After([msg], Parse(s[FrameSize(s)..]))
  }

  /** A parse leaves a suffix of the stream: an incomplete frame, or one that violates the protocol. */
  lemma {:induction false} ParseRest(s: seq<byte>)
    ensures var p := Parse(s);
            && |p.rest| <= |s| && p.rest == s[|s| - |p.rest|..]
            && (p.violation.None? <==> !HasFrame(p.rest))
            && (p.violation.Some? ==> DispatchHead(p.rest) == Violate(p.violation.value))
  {
    if HasFrame(s) && DispatchHead(s).Deliver? {
      ParseRest(s[FrameSize(s)..]);
    }
  }

  /** The head frame of a stream is the same whatever follows it. */
  lemma HeadStable(a: seq<byte>, b: seq<byte>)
    requires HasFrame(a)
    ensures HasFrame(a + b) && FrameSize(a + b) == FrameSize(a)
    ensures DispatchHead(a + b) == DispatchHead(a)
    ensures (a + b)[FrameSize(a)..] == a[FrameSize(a)..] + b
  {
    assert (a + b)[FRAME_HEADER_SIZE..FrameSize(a)] == a[FRAME_HEADER_SIZE..FrameSize(a)];
  }

  /** Parsing may stop anywhere and resume from what was left over. */
  lemma {:induction false} ParseResumes(a: seq<byte>, b: seq<byte>)
    ensures Parse(a).violation.None? ==> Parse(a + b) == After(Parse(a).msgs, Parse(Parse(a).rest + b))
    ensures Parse(a).violation.Some? ==> Parse(a + b) == Parse(a).(rest := Parse(a).rest + b)
  {
    if HasFrame(a) {
      HeadStable(a, b);
      match DispatchHead(a)
      case Violate(_) =>
      case Deliver(msg) =>
        var a' := a[FrameSize(a)..];
        ParseResumes(a', b);
        AfterAfter([msg], Parse(a').msgs, Parse(Parse(a').rest + b));
    }
  }

  lemma ParseHead(f: seq<byte>, tail: seq<byte>)
    requires HasFrame(f) && FrameSize(f) == |f|
    ensures FrameSize(f + tail) == |f|
    ensures Parse(f + tail) ==
            if DispatchHead(f).Deliver? then After([DispatchHead(f).msg], Parse(tail))
            else Parsed([], f + tail, Some(DispatchHead(f).what))
  {
    HeadStable(f, tail);
    assert f[FrameSize(f)..] + tail == tail;
  }

  // ----- outbound -----

  function Kind(m: Message): byte {
    match m
    case Hello(_) => TYPE_HELLO
    case Bye(_) => TYPE_BYE
    case Ping(_) => TYPE_PING
    case Pong(_) => TYPE_PONG
    case TcpOpen(_, _) => TYPE_TCP_OPEN
    case TcpOpenAck(_, _) => TYPE_TCP_OPEN_ACK
    case TcpData(_, _) => TYPE_TCP_DATA
    case TcpCloseWr(_) => TYPE_TCP_CLOSE_WR
    case TcpRst(_, _) => TYPE_TCP_RST
    case TcpWindow(_, _) => TYPE_TCP_WINDOW
    case UdpBind(_) => TYPE_UDP_BIND
    case UdpBindAck(_, _) => TYPE_UDP_BIND_ACK
    case UdpPacket(_, _, _) => TYPE_UDP_PACKET
    case UdpClose(_) => TYPE_UDP_CLOSE
  }

  function StreamOf(m: Message): u16 {
    if m.Hello? || m.Bye? || m.Ping? || m.Pong? then 0 else m.sid
  }

  /** What the senders accept: the source's own argument checks. */
  predicate Sendable(m: Message) {
    match m
    case Ping(nonce) => |nonce| <= FRAME_MAX_PAYLOAD
    case Pong(nonce) => |nonce| <= FRAME_MAX_PAYLOAD
    case TcpOpen(_, dst) => |dst.addr| <= 16
    case TcpData(_, data) => 0 < |data| <= FRAME_MAX_PAYLOAD
    case UdpPacket(_, remote, datagram) =>
      |remote.addr| <= 16 && 4 + |remote.addr| + |datagram| <= FRAME_MAX_PAYLOAD
    case _ => true
  }

  function PayloadBytes(m: Message): (p: seq<byte>)
    requires Sendable(m)
    ensures |p| <= FRAME_MAX_PAYLOAD
  {
    match m
    case Hello(h) => HelloBytes(h)
    case Bye(reason) => U16Be(reason)
    case Ping(nonce) => nonce
    case Pong(nonce) => nonce
    case TcpOpen(_, dst) => EndpointBytes(dst)
    case TcpOpenAck(_, status) => U16Be(status)
    case TcpData(_, data) => data
    case TcpCloseWr(_) => []
    case TcpRst(_, reason) => U16Be(reason)
    case TcpWindow(_, credit) => U32Be(credit)
    case UdpBind(_) => []
    case UdpBindAck(_, status) => U16Be(status)
    case UdpPacket(_, remote, datagram) => EndpointBytes(remote) + datagram
    case UdpClose(_) => []
  }

  function FrameOf(kind: byte, sid: u16, payload: seq<byte>): (f: seq<byte>)
    requires |payload| <= FRAME_MAX_PAYLOAD
    ensures |f| == FRAME_HEADER_SIZE + |payload|
  {
    HeaderBytes(kind, sid, |payload|) + payload
  }

  function Encode(m: Message): seq<byte>
    requires Sendable(m)
  {
    FrameOf(Kind(m), StreamOf(m), PayloadBytes(m))
  }

  /** Frames that only flow towards the server are refused by this receiver. */
  predicate Receivable(m: Message) { !m.TcpOpen? && !m.UdpBind? }

  lemma FrameParts(kind: byte, sid: u16, payload: seq<byte>)
    requires |payload| <= FRAME_MAX_PAYLOAD
    ensures var f := FrameOf(kind, sid, payload);
            && HasFrame(f) && FrameSize(f) == |f|
            && DecodeHeader(f) == FrameHeader(PROTO_VERSION, kind, sid, |payload|)
            && f[FRAME_HEADER_SIZE..FrameSize(f)] == payload
  {
    U16RoundTrip(sid, U16Be(0));
    U16RoundTrip(|payload|, U16Be(0));
  }

  lemma DispatchUdpPacket(sid: u16, remote: Endpoint, datagram: seq<byte>, p: seq<byte>)
    requires |remote.addr| <= 16 && p == EndpointBytes(remote) + datagram && |p| <= FRAME_MAX_PAYLOAD
    ensures Dispatch(FrameHeader(PROTO_VERSION, TYPE_UDP_PACKET, sid, |p|), p) ==
            Deliver(UdpPacket(sid, remote, datagram))
  {
    EndpointRoundTrip(remote, datagram);
    assert p[|EndpointBytes(remote)|..] == datagram;
  }

  /** One frame: what the dispatcher makes of a sender's frame, for all 14 kinds. */
  lemma FrameRoundTrip(m: Message)
    requires Sendable(m)
    ensures HasFrame(Encode(m)) && FrameSize(Encode(m)) == |Encode(m)|
    ensures DispatchHead(Encode(m)) == if Receivable(m) then Deliver(m) else Violate(UnexpectedFrame)
  {
    var p := PayloadBytes(m);
    FrameParts(Kind(m), StreamOf(m), p);
    match m
    case Hello(h) => HelloRoundTrip(h, []);
    case Bye(reason) => U16RoundTrip(reason, p);
    case TcpOpenAck(_, status) => U16RoundTrip(status, p);
    case TcpRst(_, reason) => U16RoundTrip(reason, p);
    case TcpWindow(_, credit) => U32RoundTrip(credit, p);
    case UdpBindAck(_, status) => U16RoundTrip(status, p);
    case UdpPacket(sid, remote, datagram) =>
      DispatchUdpPacket(sid, remote, datagram, p);
      assert StreamOf(m) == sid && Kind(m) == TYPE_UDP_PACKET;
    case _ =>
  }

  /** Frame (h, p) carries m, declaratively: kind and stream are m's (control frames name no stream),
      and the payload starts with m's, an absent reason meaning 0; a HELLO, a nonce, a data block
      and a datagram take the payload to its end. */
  predicate Carries(h: FrameHeader, p: seq<byte>, m: Message) {
    && Sendable(m) && Kind(m) == h.kind
    && (m.Hello? || m.Bye? || m.Ping? || m.Pong? || m.sid == h.streamId)
    && (if (m.Bye? || m.TcpRst?) && |p| < 2 then m.reason == 0 else PayloadBytes(m) <= p)
    && (m.Hello? || m.Ping? || m.Pong? || m.TcpData? || m.UdpPacket? ==> PayloadBytes(m) == p)
  }

  lemma PrefixBytes(a: seq<byte>, p: seq<byte>)
    requires a <= p
    ensures |a| >= 2 ==> ReadU16(p, 0) == ReadU16(a, 0)
    ensures |a| >= 4 ==> ReadU32(p, 0) == ReadU32(a, 0)
  {
  }

  lemma CarriedIsDelivered(h: FrameHeader, p: seq<byte>, m: Message)
    requires |p| == h.length && h.ver == PROTO_VERSION && Receivable(m) && Carries(h, p, m)
    ensures Dispatch(h, p) == Deliver(m)
  {
    match m
    case Hello(hello) => HelloRoundTrip(hello, p);
    case Bye(reason) => if |p| >= 2 { U16RoundTrip(reason, U16Be(0)); PrefixBytes(U16Be(reason), p); }
    case TcpOpenAck(_, status) => U16RoundTrip(status, U16Be(0)); PrefixBytes(U16Be(status), p);
    case TcpRst(_, reason) => if |p| >= 2 { U16RoundTrip(reason, U16Be(0)); PrefixBytes(U16Be(reason), p); }
    case TcpWindow(_, credit) => U32RoundTrip(credit, U32Be(0)); PrefixBytes(U32Be(credit), p);
    case UdpBindAck(_, status) => U16RoundTrip(status, U16Be(0)); PrefixBytes(U16Be(status), p);
    case UdpPacket(sid, remote, datagram) => DispatchUdpPacket(sid, remote, datagram, p);
    case _ =>
  }

  lemma U16Prefix(p: seq<byte>)
    requires |p| >= 2
    ensures U16Be(ReadU16(p, 0)) <= p
  {
    U16RoundTrip(0, p[..2]);
  }

  lemma DeliveredIsCarried(h: FrameHeader, p: seq<byte>)
    requires |p| == h.length && Dispatch(h, p).Deliver?
    ensures h.ver == PROTO_VERSION && Receivable(Dispatch(h, p).msg) && Carries(h, p, Dispatch(h, p).msg)
  {
    var m := Dispatch(h, p).msg;
    if |p| >= 2 { U16Prefix(p); }
    match m
    case Hello(hello) => HelloRoundTrip(hello, p);
    case TcpWindow(_, credit) => U32RoundTrip(0, p[..4]);
    case UdpPacket(sid, remote, datagram) =>
      EndpointDecodeIsEncoding(p);
      assert EndpointBytes(remote) + datagram == p;
    case _ =>
  }

  /** The dispatcher delivers m for a frame exactly if the frame is of this version and carries m, and
      m is one this receiver takes. So it reports a violation exactly if there is no such m. */
  lemma DispatchExactly(h: FrameHeader, p: seq<byte>, m: Message)
    requires |p| == h.length
    ensures Dispatch(h, p) == Deliver(m) <==> h.ver == PROTO_VERSION && Receivable(m) && Carries(h, p, m)
  {
    if h.ver == PROTO_VERSION && Receivable(m) && Carries(h, p, m) {
      CarriedIsDelivered(h, p, m);
    }
    if Dispatch(h, p) == Deliver(m) {
      DeliveredIsCarried(h, p);
    }
  }

  function EncodeAll(ms: seq<Message>): seq<byte>
    requires forall m <- ms :: Sendable(m)
  {
    if ms == [] then [] else Encode(ms[0]) + EncodeAll(ms[1..])
  }

  /** The longest prefix of ms this receiver accepts. */
  function ReceivablePrefix(ms: seq<Message>): (n: nat)
    ensures n <= |ms|
    ensures forall k | 0 <= k < n :: Receivable(ms[k])
    ensures n < |ms| ==> !Receivable(ms[n])
  {
    if ms == [] || !Receivable(ms[0]) then 0 else 1 + ReceivablePrefix(ms[1..])
  }

  lemma ParseOne(m: Message, tail: seq<byte>)
    requires Sendable(m)
    ensures Parse(Encode(m) + tail) ==
            if Receivable(m) then After([m], Parse(tail))
            else Parsed([], Encode(m) + tail, Some(UnexpectedFrame))
  {
    FrameRoundTrip(m);
    ParseHead(Encode(m), tail);
  }

  /** What a receiver of the frames of ms has to report. */
  function Received(ms: seq<Message>): Parsed
    requires forall m <- ms :: Sendable(m)
  {
    var n := ReceivablePrefix(ms);
    Parsed(ms[..n], EncodeAll(ms[n..]), if n < |ms| then Some(UnexpectedFrame) else None)
  }

  lemma PrefixStep(ms: seq<Message>)
    requires ms != [] && Receivable(ms[0])
    ensures var n := ReceivablePrefix(ms[1..]);
            && ReceivablePrefix(ms) == n + 1
            && [ms[0]] + ms[1..][..n] == ms[..n + 1]
            && ms[1..][n..] == ms[n + 1..]
  {
  }

  /** Many frames: whatever list is sent, the receiver reports exactly its messages up to the
      first client-to-server one, and a violation exactly if there is such a one. */
  lemma {:induction false} StreamRoundTrip(ms: seq<Message>)
    requires forall m <- ms :: Sendable(m)
    ensures Parse(EncodeAll(ms)) == Received(ms)
  {
    if ms == [] {
    } else {
      ParseOne(ms[0], EncodeAll(ms[1..]));
      if Receivable(ms[0]) {
        StreamRoundTrip(ms[1..]);
        PrefixStep(ms);
      } else {
        assert ms[..0] == [] && ms[0..] == ms;
      }
    }
  }
}
