/** panctl/mux.c: the session struct, its reassembly loop and its senders. */
module MuxSession {
  import opened Bytes
  import opened Frame
  import opened MuxSpec
  import opened MuxFeed
  import SQ = SendQueueSpec
  import SendQueue

  datatype Phase = ReadHeader | ReadPayload

  /** What writing one frame makes of the queue, and the sender's return code. */
  function FrameStep(q: SQ.Queue, frame: seq<byte>, rc: SQ.Answer): (SQ.Queue, int) {
    var (q', n) := SQ.WriteStep(q, frame, rc);
    (q', if n == |frame| then 0 else -1)
  }

  /** What sending m makes of the queue: its one frame is written, or nothing is. */
  function SendStep(q: SQ.Queue, m: Message, rc: SQ.Answer): (SQ.Queue, int) {
    if Sendable(m) then FrameStep(q, Encode(m), rc) else (q, -1)
  }

  const OUR_HELLO := HelloPayload(PROTO_VERSION, 0, 256, 64)

  /** A channel-opened event: the queue learns the channel and our HELLO is sent on it. The result is
      that of the sender, or -1 if the open failed. */
  function OpenStep(q: SQ.Queue, status: byte, cid: u16, rc: SQ.Answer): (SQ.Queue, int) {
    var q' := SQ.Step(q, SQ.Opened(status, cid));
    if status != 0 then (q', -1) else SendStep(q', Hello(OUR_HELLO), rc)
  }

  class Session {
    const handles: set<Callback>      // the optional callbacks that are set
    const link: SendQueue.RfcommQueue // where the write callback leads
    var phase: Phase
    const hdrBuf: array<byte>
    var hdrFilled: nat
    var current: FrameHeader
    var payload: array<byte>          // its length is payload_cap
    var payloadFilled: nat
    ghost var calls: seq<Event>       // the callbacks made so far

    ghost predicate Valid()
      reads this, hdrBuf, payload
    {
      && hdrBuf.Length == FRAME_HEADER_SIZE && hdrBuf != payload && payload.Length <= FRAME_MAX_PAYLOAD
      && match phase
         case ReadHeader => hdrFilled < FRAME_HEADER_SIZE
         case ReadPayload =>
           && hdrFilled == 0 && current == DecodeHeader(hdrBuf[..])
           && 0 < current.length <= payload.Length && payloadFilled <= current.length
           && (payloadFilled == current.length ==> Dispatch(current, payload[..current.length]).Violate?)
    }

    /** The bytes taken in but not yet reported on. */
    ghost function Pending(): seq<byte>
      requires Valid()
      reads this, hdrBuf, payload
    {
      match phase
      case ReadHeader => hdrBuf[..hdrFilled]
      case ReadPayload => hdrBuf[..] + payload[..payloadFilled]
    }

    /** Pending bytes are an incomplete frame, or one that was refused and stays. */
    lemma PendingIsResumable()
      requires Valid()
      ensures Resumable(Pending())
    {
      if phase == ReadPayload {
        assert Pending()[..FRAME_HEADER_SIZE] == hdrBuf[..];
        assert Pending()[FRAME_HEADER_SIZE..] == payload[..payloadFilled];
      }
    }

    /** mux_create */
    constructor (handles: set<Callback>, link: SendQueue.RfcommQueue)
      ensures Valid() && fresh(hdrBuf) && fresh(payload)
      ensures Pending() == [] && calls == [] && this.handles == handles && this.link == link
    {
      this.handles, this.link := handles, link;
      phase, hdrFilled, payloadFilled := ReadHeader, 0, 0;
      hdrBuf := new byte[FRAME_HEADER_SIZE];
      payload := new byte[0];
      calls := [];
    }

    // ----- inbound -----

    ghost method Emit(e: Event)
      modifies this`calls
      ensures calls == old(calls) + Delivered(handles, [e])
    {
      if Handled(handles, e) {
        calls := calls + [e];
      }
    }

    /** ensure_payload_cap, allocation succeeding: doubling reaches the need and never passes
        the largest payload. The bytes already there are kept. */
    method EnsurePayloadCap(need: nat)
      requires payload.Length <= FRAME_MAX_PAYLOAD && need <= FRAME_MAX_PAYLOAD
      modifies this`payload
      ensures need <= payload.Length <= FRAME_MAX_PAYLOAD
      ensures payload == old(payload) || fresh(payload)
      ensures old(payload.Length) <= payload.Length && payload[..old(payload.Length)] == old(payload[..])
    {
      if need <= payload.Length {
        return;
      }
      var cap := if payload.Length != 0 then payload.Length else 256;
      while cap < need
        invariant cap >= payload.Length && cap > 0
        decreases need - cap
      {
        cap := cap * 2;
      }
      if cap > FRAME_MAX_PAYLOAD {
        cap := FRAME_MAX_PAYLOAD;
      }
      var p := new byte[cap];
      CopyInto(p, 0, payload[..]);
      payload := p;
    }

    /** dispatch_frame on the frame just completed. */
    method DispatchFrame() returns (ok: bool)
      requires current.length <= payload.Length
      modifies this`calls
      ensures var d := Dispatch(current, payload[..current.length]);
              && ok == d.Deliver?
              && calls == old(calls) + Delivered(handles, [EventOf(d)])
    {
      match Dispatch(current, payload[..current.length])
      case Deliver(msg) =>
        Emit(Received(msg));
        ok := true;
      case Violate(what) =>
        Emit(ProtocolError(what));
        ok := false;
    }

    /** One pass of mux_feed's loop in the header phase. Either no frame was completed and the
        bytes taken from buf are pending, or one was: f, dispatched as d. */
    method TakeHeader(buf: seq<byte>, i: nat) returns (j: nat, d: Option<bool>, ghost f: seq<byte>)
      requires Valid() && phase == ReadHeader && i < |buf|
      modifies this, hdrBuf
      ensures Valid() && (payload == old(payload) || fresh(payload)) && i < j <= |buf|
      ensures d.None? ==> !HasFrame(Pending()) && Pending() + buf[j..] == old(Pending()) + buf[i..]
      ensures d.None? && j < |buf| ==> phase == ReadPayload
      ensures d.None? ==> calls == old(calls)
      ensures d.Some? ==> HasFrame(f) && |f| == FrameSize(f) && f + buf[j..] == old(Pending()) + buf[i..]
      ensures d.Some? ==> d.value == DispatchHead(f).Deliver? && Pending() == [] && |f| == FRAME_HEADER_SIZE
      ensures d.Some? ==> calls == old(calls) + Delivered(handles, [EventOf(DispatchHead(f))])
    {
      f, d := [], None;
      var want := FRAME_HEADER_SIZE - hdrFilled;
      var avail := |buf| - i;
      var take := if avail < want then avail else want;
      CopyInto(hdrBuf, hdrFilled, buf[i..i + take]);
      hdrFilled := hdrFilled + take;
      j := i + take;
      assert hdrBuf[..hdrFilled] + buf[j..] == old(Pending()) + buf[i..];
      if hdrFilled < FRAME_HEADER_SIZE {
        return;
      }
      current := DecodeHeader(hdrBuf[..]);
      hdrFilled := 0;
      payloadFilled := 0;
      if current.length > 0 {
        EnsurePayloadCap(current.length);
        phase := ReadPayload;
        assert Pending() == hdrBuf[..];
      } else {
        f := hdrBuf[..];
        assert f[FRAME_HEADER_SIZE..FrameSize(f)] == [] == payload[..0];
        var ok := DispatchFrame();
        d := Some(ok);
      }
    }

    /** One pass of mux_feed's loop in the payload phase, including the pass that takes nothing
        because a refused frame is still there. */
    method TakePayload(buf: seq<byte>, i: nat) returns (j: nat, d: Option<bool>, ghost f: seq<byte>)
      requires Valid() && phase == ReadPayload && i < |buf|
      modifies this, payload
      ensures Valid() && payload == old(payload) && i <= j <= |buf|
      ensures d.None? ==> j == |buf| && !HasFrame(Pending()) && Pending() == old(Pending()) + buf[i..]
      ensures d.None? ==> calls == old(calls)
      ensures d.Some? ==> HasFrame(f) && |f| == FrameSize(f) && f + buf[j..] == old(Pending()) + buf[i..]
      ensures d.Some? ==> d.value == DispatchHead(f).Deliver? && |f| > FRAME_HEADER_SIZE
      ensures d.Some? ==> Pending() == (if d.value then [] else f) && (d.value ==> i < j)
      ensures d.Some? ==> calls == old(calls) + Delivered(handles, [EventOf(DispatchHead(f))])
    {
      f, d := [], None;
      var want := current.length - payloadFilled;
      var avail := |buf| - i;
      var take := if avail < want then avail else want;
      ghost var before := payload[..payloadFilled];
      CopyInto(payload, payloadFilled, buf[i..i + take]);
      payloadFilled := payloadFilled + take;
      j := i + take;
      assert payload[..payloadFilled] == before + buf[i..j];
      f := hdrBuf[..] + payload[..payloadFilled];
      Regroup(hdrBuf[..], before, buf, i, j);
      if payloadFilled < current.length {
        return;
      }
      FrameOfParts(hdrBuf[..], payload[..payloadFilled]);
      var ok := DispatchFrame();
      d := Some(ok);
      if ok {
        phase := ReadHeader;
      }
    }

    static lemma Regroup(h: seq<byte>, p: seq<byte>, buf: seq<byte>, i: nat, j: nat)
      requires i <= j <= |buf|
      ensures h + (p + buf[i..j]) + buf[j..] == h + p + buf[i..]
      ensures j == |buf| ==> h + (p + buf[i..j]) == h + p + buf[i..]
    {
    }

    static lemma FrameOfParts(h: seq<byte>, p: seq<byte>)
      requires |h| == FRAME_HEADER_SIZE && |p| == DecodeHeader(h).length
      ensures HasFrame(h + p) && FrameSize(h + p) == |h + p|
      ensures DispatchHead(h + p) == Dispatch(DecodeHeader(h), p)
    {
      assert (h + p)[FRAME_HEADER_SIZE..FrameSize(h + p)] == p;
    }

    /** One pass of mux_feed's loop, in either phase. */
    method TakeFrame(buf: seq<byte>, i: nat) returns (j: nat, d: Option<bool>, ghost f: seq<byte>)
      requires Valid() && i < |buf|
      modifies this, hdrBuf, payload
      ensures Valid() && (payload == old(payload) || fresh(payload)) && i <= j <= |buf|
      ensures d.None? ==> i < j && !HasFrame(Pending()) && Pending() + buf[j..] == old(Pending()) + buf[i..]
      ensures d.None? ==> calls == old(calls)
      ensures d.Some? ==> HasFrame(f) && |f| == FrameSize(f) && f + buf[j..] == old(Pending()) + buf[i..]
      ensures d.Some? ==> d.value == DispatchHead(f).Deliver? && (d.value ==> i < j)
      ensures d.Some? ==> Pending() == if d.value || |f| == FRAME_HEADER_SIZE then [] else f
      ensures d == Some(true) ==> Pending() + buf[j..] == buf[j..]
      ensures d.Some? ==> calls == old(calls) + Delivered(handles, [EventOf(DispatchHead(f))])
    {
      if phase == ReadHeader {
        j, d, f := TakeHeader(buf, i);
      } else {
        j, d, f := TakePayload(buf, i);
        assert d.None? ==> Pending() + buf[j..] == Pending();
      }
    }

    /** The same pass seen from the whole call, which has reported msgs so far. */
    method Pass(buf: seq<byte>, i: nat, ghost whole: seq<byte>, ghost msgs: seq<Message>, ghost before: seq<Event>)
      returns (j: nat, ok: bool, ghost msgs': seq<Message>)
      requires Valid() && i < |buf|
      requires Parse(whole) == After(msgs, Parse(Pending() + buf[i..]))
      requires calls == before + Delivered(handles, ReceivedAll(msgs))
      modifies this, hdrBuf, payload
      ensures Valid() && (payload == old(payload) || fresh(payload)) && i <= j <= |buf|
      ensures ok ==> i < j && !HasFrame(Pending())
      ensures ok ==> Parse(whole) == After(msgs', Parse(Pending() + buf[j..]))
      ensures ok ==> calls == before + Delivered(handles, ReceivedAll(msgs'))
      ensures !ok ==> var f := FeedWhole(whole);
                      f.violation.Some? && Pending() == f.pending && calls == before + Delivered(handles, Events(f))
    {
      var d;
      ghost var f;
      j, d, f := TakeFrame(buf, i);
      ok, msgs' := d != Some(false), msgs;
      if d.Some? {
        CallsGrow(handles, before, msgs, DispatchHead(f));
        if ok {
          AbsorbDelivered(whole, msgs, f, buf[j..]);
          msgs' := msgs + [DispatchHead(f).msg];
        } else {
          AbsorbRefused(whole, msgs, f, buf[j..]);
        }
      }
    }

    /** mux_feed: one call does what FeedStep says, whatever state the previous calls left, and leaves
        one from which the next call is defined. */
    method Feed(buf: seq<byte>) returns (rc: int)
      requires Valid()
      modifies this, hdrBuf, payload
      ensures Valid() && (payload == old(payload) || fresh(payload)) && Resumable(Pending())
      ensures var f := FeedStep(old(Pending()), buf);
              && Pending() == f.pending
              && calls == old(calls) + Delivered(handles, Events(f))
              && rc == (if f.violation.None? then 0 else -1)
    {
      ghost var whole := Pending() + buf;
      ghost var msgs: seq<Message> := [];
      var i := 0;
      assert buf[i..] == buf;
      AfterNothing(Parse(whole));
      while i < |buf|
        invariant Valid() && i <= |buf| && (payload == old(payload) || fresh(payload))
        invariant if i == 0 then Pending() == old(Pending()) && msgs == [] else !HasFrame(Pending())
        invariant Parse(whole) == After(msgs, Parse(Pending() + buf[i..]))
        invariant calls == old(calls) + Delivered(handles, ReceivedAll(msgs))
      {
        var ok;
        i, ok, msgs := Pass(buf, i, whole, msgs, old(calls));
        if !ok {
          PendingIsResumable();
          return -1;
        }
      }
      PendingIsResumable();
      assert Pending() + buf[i..] == Pending();
      CallDone(old(Pending()), buf, msgs, Pending());
      rc := 0;
    }

    // ----- outbound -----

    /** write_frame_small: the frame is built in a buffer with room for 64 payload bytes. */
    method WriteFrameSmall(kind: byte, sid: u16, p: seq<byte>, rc: SQ.Answer) returns (r: int)
      requires link.Valid() && |p| <= FRAME_MAX_PAYLOAD
      modifies link, link.slots
      ensures link.Valid()
      ensures (link.Abs(), r) == if |p| > 64 then (old(link.Abs()), -1)
                                 else FrameStep(old(link.Abs()), FrameOf(kind, sid, p), rc)
    {
      var buf := new byte[FRAME_HEADER_SIZE + 64];
      if |p| > 64 {
        return -1;
      }
      EncodeHeader(buf, kind, sid, |p|);
      CopyInto(buf, FRAME_HEADER_SIZE, p);
      var total := FRAME_HEADER_SIZE + |p|;
      assert buf[..total] == FrameOf(kind, sid, p);
      var n := link.Write(buf[..total], rc);
      r := if n == total then 0 else -1;
    }

    /** write_frame_alloc, allocation succeeding: the payload comes in two parts. */
    method WriteFrameAlloc(kind: byte, sid: u16, p1: seq<byte>, p2: seq<byte>, rc: SQ.Answer) returns (r: int)
      requires link.Valid()
      modifies link, link.slots
      ensures link.Valid()
      ensures (link.Abs(), r) == if |p1 + p2| > FRAME_MAX_PAYLOAD then (old(link.Abs()), -1)
                                 else FrameStep(old(link.Abs()), FrameOf(kind, sid, p1 + p2), rc)
    {
      var len := |p1| + |p2|;
      if len > FRAME_MAX_PAYLOAD {
        return -1;
      }
      var total := FRAME_HEADER_SIZE + len;
      var buf := new byte[total];
      EncodeHeader(buf, kind, sid, len);
      CopyInto(buf, FRAME_HEADER_SIZE, p1);
      CopyInto(buf, FRAME_HEADER_SIZE + |p1|, p2);
      assert buf[..] == FrameOf(kind, sid, p1 + p2);
      var n := link.Write(buf[..], rc);
      r := if n == total then 0 else -1;
    }

    method SendHello(h: HelloPayload, rc: SQ.Answer) returns (r: int)
      requires link.Valid()
      modifies link, link.slots
      ensures link.Valid()
      ensures (link.Abs(), r) == SendStep(old(link.Abs()), Hello(h), rc)
    {
      var p := new byte[6];
      EncodeHello(p, h);
      assert p[..] == HelloBytes(h);
      r := WriteFrameSmall(TYPE_HELLO, 0, p[..], rc);
    }

    method SendBye(reason: u16, rc: SQ.Answer) returns (r: int)
      requires link.Valid()
      modifies link, link.slots
      ensures link.Valid()
      ensures (link.Abs(), r) == SendStep(old(link.Abs()), Bye(reason), rc)
    {
      var p := new byte[2];
      WriteU16(p, 0, reason);
      assert p[..] == U16Be(reason);
      r := WriteFrameSmall(TYPE_BYE, 0, p[..], rc);
    }

    method SendPing(nonce: seq<byte>, rc: SQ.Answer) returns (r: int)
      requires link.Valid()
      modifies link, link.slots
      ensures link.Valid()
      ensures (link.Abs(), r) == SendStep(old(link.Abs()), Ping(nonce), rc)
    {
      if |nonce| > 64 {
        assert nonce + [] == nonce;
        r := WriteFrameAlloc(TYPE_PING, 0, nonce, [], rc);
      } else {
        r := WriteFrameSmall(TYPE_PING, 0, nonce, rc);
      }
    }

    method SendPong(nonce: seq<byte>, rc: SQ.Answer) returns (r: int)
      requires link.Valid()
      modifies link, link.slots
      ensures link.Valid()
      ensures (link.Abs(), r) == SendStep(old(link.Abs()), Pong(nonce), rc)
    {
      if |nonce| > 64 {
        assert nonce + [] == nonce;
        r := WriteFrameAlloc(TYPE_PONG, 0, nonce, [], rc);
      } else {
        r := WriteFrameSmall(TYPE_PONG, 0, nonce, rc);
      }
    }

    method SendTcpOpen(sid: u16, dst: Endpoint, rc: SQ.Answer) returns (r: int)
      requires link.Valid()
      modifies link, link.slots
      ensures link.Valid()
      ensures (link.Abs(), r) == SendStep(old(link.Abs()), TcpOpen(sid, dst), rc)
    {
      var p := new byte[20];
      var ok, n := EncodeEndpoint(p, dst);
      if !ok {
        return -1;
      }
      assert p[..n] == EndpointBytes(dst);
      r := WriteFrameSmall(TYPE_TCP_OPEN, sid, p[..n], rc);
    }

    method SendTcpOpenAck(sid: u16, status: u16, rc: SQ.Answer) returns (r: int)
      requires link.Valid()
      modifies link, link.slots
      ensures link.Valid()
      ensures (link.Abs(), r) == SendStep(old(link.Abs()), TcpOpenAck(sid, status), rc)
    {
      var p := new byte[2];
      WriteU16(p, 0, status);
      assert p[..] == U16Be(status);
      r := WriteFrameSmall(TYPE_TCP_OPEN_ACK, sid, p[..], rc);
    }

    method SendTcpData(sid: u16, data: seq<byte>, rc: SQ.Answer) returns (r: int)
      requires link.Valid()
      modifies link, link.slots
      ensures link.Valid()
      ensures (link.Abs(), r) == SendStep(old(link.Abs()), TcpData(sid, data), rc)
    {
      if |data| == 0 || |data| > FRAME_MAX_PAYLOAD {
        return -1;
      }
      assert data + [] == data;
      r := WriteFrameAlloc(TYPE_TCP_DATA, sid, data, [], rc);
    }

    method SendTcpCloseWr(sid: u16, rc: SQ.Answer) returns (r: int)
      requires link.Valid()
      modifies link, link.slots
      ensures link.Valid()
      ensures (link.Abs(), r) == SendStep(old(link.Abs()), TcpCloseWr(sid), rc)
    {
      r := WriteFrameSmall(TYPE_TCP_CLOSE_WR, sid, [], rc);
    }

    method SendTcpRst(sid: u16, reason: u16, rc: SQ.Answer) returns (r: int)
      requires link.Valid()
      modifies link, link.slots
      ensures link.Valid()
      ensures (link.Abs(), r) == SendStep(old(link.Abs()), TcpRst(sid, reason), rc)
    {
      var p := new byte[2];
      WriteU16(p, 0, reason);
      assert p[..] == U16Be(reason);
      r := WriteFrameSmall(TYPE_TCP_RST, sid, p[..], rc);
    }

    method SendTcpWindow(sid: u16, credit: u32, rc: SQ.Answer) returns (r: int)
      requires link.Valid()
      modifies link, link.slots
      ensures link.Valid()
      ensures (link.Abs(), r) == SendStep(old(link.Abs()), TcpWindow(sid, credit), rc)
    {
      var p := new byte[4];
      WriteU32(p, 0, credit);
      assert p[..] == U32Be(credit);
      r := WriteFrameSmall(TYPE_TCP_WINDOW, sid, p[..], rc);
    }

    method SendUdpBind(sid: u16, rc: SQ.Answer) returns (r: int)
      requires link.Valid()
      modifies link, link.slots
      ensures link.Valid()
      ensures (link.Abs(), r) == SendStep(old(link.Abs()), UdpBind(sid), rc)
    {
      r := WriteFrameSmall(TYPE_UDP_BIND, sid, [], rc);
    }

    method SendUdpBindAck(sid: u16, status: u16, rc: SQ.Answer) returns (r: int)
      requires link.Valid()
      modifies link, link.slots
      ensures link.Valid()
      ensures (link.Abs(), r) == SendStep(old(link.Abs()), UdpBindAck(sid, status), rc)
    {
      var p := new byte[2];
      WriteU16(p, 0, status);
      assert p[..] == U16Be(status);
      r := WriteFrameSmall(TYPE_UDP_BIND_ACK, sid, p[..], rc);
    }

    method SendUdpPacket(sid: u16, remote: Endpoint, datagram: seq<byte>, rc: SQ.Answer) returns (r: int)
      requires link.Valid()
      modifies link, link.slots
      ensures link.Valid()
      ensures (link.Abs(), r) == SendStep(old(link.Abs()), UdpPacket(sid, remote, datagram), rc)
    {
      var epBuf := new byte[20];
      var ok, n := EncodeEndpoint(epBuf, remote);
      if !ok {
        return -1;
      }
      assert epBuf[..n] == EndpointBytes(remote);
      r := WriteFrameAlloc(TYPE_UDP_PACKET, sid, epBuf[..n], datagram, rc);
    }

    method SendUdpClose(sid: u16, rc: SQ.Answer) returns (r: int)
      requires link.Valid()
      modifies link, link.slots
      ensures link.Valid()
      ensures (link.Abs(), r) == SendStep(old(link.Abs()), UdpClose(sid), rc)
    {
      r := WriteFrameSmall(TYPE_UDP_CLOSE, sid, [], rc);
    }

    /** RFCOMM_EVENT_CHANNEL_OPENED: on success our HELLO is the first thing written. */
    method OnChannelOpened(status: byte, cid: u16, rc: SQ.Answer)
      requires link.Valid()
      modifies link, link.slots
      ensures link.Valid()
      ensures link.Abs() == OpenStep(old(link.Abs()), status, cid, rc).0
    {
      link.OnOpened(status, cid);
      if status != 0 {
        return;
      }
      var _ := SendHello(OUR_HELLO, rc);
    }
  }
}
