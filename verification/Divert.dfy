/** struct divert and its handlers, in place; each refines its DivertTable step. */
module Divert {
  import opened Bytes
  import opened Frame
  import opened MuxSpec
  import opened Ipv4
  import opened DivertTable

  class Session {
    var tcp: map<u16, TcpStream>
    var udp: map<u16, UdpStream>
    const portToStream: array<u16>
    var nextId: IdCursor
    var ipId: u16
    const isTun: bool
    ghost var out: seq<Out>   // what was sent, injected and done to local sockets

    ghost predicate Valid()
      reads this
    {
      portToStream.Length == PORTS
    }

    ghost function Abs(): Tables
      requires Valid()
      reads this, portToStream
    {
      Tables(tcp, udp, portToStream[..], nextId, ipId, isTun)
    }

    /** divert_create, its sockets opened. */
    constructor (isTun: bool)
      ensures Valid() && fresh(portToStream) && Abs() == Fresh(isTun) && out == []
    {
      tcp, udp := map[], map[];
      portToStream := new u16[PORTS](_ => 0);
      nextId, ipId := 1, 1;
      this.isTun := isTun;
      out := [];
    }

    ghost method Emit(os: seq<Out>)
      modifies this`out
      ensures out == old(out) + os
    {
      out := out + os;
    }

    /** alloc_stream_id */
    method AllocStreamId() returns (id: u16)
      requires Valid()
      modifies this`nextId
      ensures Valid() && id == AllocId(old(Abs()))
      ensures Abs() == if id == 0 then old(Abs()) else old(Abs()).(nextId := id + 1)
    {
      var i := 0;
      while i < 0xFFFF
        invariant 0 <= i <= 0xFFFF && nextId == old(nextId)
        invariant AllocId(Abs()) == Scan(Abs(), PORTS - 1 - i)
      {
        id := (nextId + i) % PORTS;
        if id != 0 && id !in tcp && id !in udp {
          nextId := id + 1;
          return;
        }
        i := i + 1;
      }
      id := 0;
    }

    /** tcp_stream_free */
    method TcpStreamFree(sid: u16)
      requires Valid()
      modifies this`tcp, this`out
      ensures Valid()
      ensures var r := FreeTcp(old(Abs()), sid); Abs() == r.t && out == old(out) + r.out
    {
      if sid !in tcp {
        return;
      }
      Emit([CloseFd(tcp[sid].fd)]);
      tcp := tcp - {sid};
    }

    /** udp_stream_free */
    method UdpStreamFree(sid: u16)
      requires Valid()
      modifies this`udp, portToStream
      ensures Valid() && Abs() == FreeUdp(old(Abs()), sid)
    {
      if sid !in udp {
        return;
      }
      var p := udp[sid].localPort;
      if portToStream[p] == sid {
        portToStream[p] := 0;
      }
      udp := udp - {sid};
    }

    /** cb_tcp_open_ack */
    method TcpOpenAcked(sid: u16, status: u16)
      requires Valid()
      modifies this
      ensures Valid()
      ensures var r := Step(old(Abs()), OpenAck(sid, status)); Abs() == r.t && out == old(out) + r.out
    {
      if sid !in tcp {
        return;
      }
      if status != 0 {
        TcpStreamFree(sid);
        return;
      }
      tcp := tcp[sid := tcp[sid].(openAcked := true)];
    }

    /** cb_tcp_data, the local socket answering each write from answers. */
    method TcpDataReceived(sid: u16, data: seq<byte>, answers: seq<Wrote>)
      requires Valid()
      modifies this
      ensures Valid()
      ensures var r := Step(old(Abs()), Data(sid, data, answers)); Abs() == r.t && out == old(out) + r.out
    {
      if sid !in tcp {
        return;
      }
      var off, k := 0, 0;
      while off < |data|
        invariant Valid() && 0 <= off <= |data| && Abs() == old(Abs())
        invariant var whole := WriteLoop(old(Abs()), sid, data, answers, 0, 0);
                  var rest := WriteLoop(old(Abs()), sid, data, answers, off, k);
                  whole.t == rest.t && old(out) + whole.out == out + rest.out
        decreases if k < |answers| then |answers| - k else 0, |data| - off
      {
        var n := WroteAt(answers, k, |data| - off);
        match n {
          case WriteInterrupted =>
            k := k + 1;
            continue;
          case WriteFailed =>
            Emit([ToMux(TcpRst(sid, RST_REASON_PEER_RESET))]);
            TcpStreamFree(sid);
            return;
          case Took(m) =>
            Emit([LocalWrite(tcp[sid].fd, data[off..off + m])]);
            off, k := off + m, k + 1;
        }
      }
    }

    /** cb_tcp_close_wr */
    method TcpCloseWrReceived(sid: u16)
      requires Valid()
      modifies this
      ensures Valid()
      ensures var r := Step(old(Abs()), CloseWr(sid)); Abs() == r.t && out == old(out) + r.out
    {
      if sid !in tcp {
        return;
      }
      Emit([ShutdownWr(tcp[sid].fd)]);
      tcp := tcp[sid := tcp[sid].(closedRemote := true)];
      if tcp[sid].closedLocal {
        TcpStreamFree(sid);
      }
    }

    /** cb_tcp_rst */
    method TcpRstReceived(sid: u16)
      requires Valid()
      modifies this
      ensures Valid()
      ensures var r := Step(old(Abs()), Rst(sid)); Abs() == r.t && out == old(out) + r.out
    {
      TcpStreamFree(sid);
    }

    /** cb_udp_bind_ack */
    method UdpBindAcked(sid: u16, status: u16)
      requires Valid()
      modifies this, portToStream
      ensures Valid()
      ensures var r := Step(old(Abs()), BindAck(sid, status)); Abs() == r.t && out == old(out) + r.out
    {
      if sid !in udp {
        return;
      }
      if status != 0 {
        UdpStreamFree(sid);
        return;
      }
      udp := udp[sid := udp[sid].(bindAcked := true)];
    }

    /** Writes a packet to the tun device, behind its address-family header, or to the divert socket. */
    method InjectPacket(packet: seq<byte>)
      modifies this`out
      ensures out == old(out) + [Inject(if isTun then [0, 0, 0, 2] + packet else packet)]
    {
      if isTun {
        var framed := new byte[4 + |packet|];
        ghost var f := framed[..];
        CopyInto(framed, 0, [0, 0, 0, 2]);
        CopyInto(framed, 4, packet);
        OverwriteAppend(f, 0, [0, 0, 0, 2], packet);
        OverwriteSlice(f, 0, [0, 0, 0, 2] + packet);
        Emit([Inject(framed[0..4 + |packet|])]);
      } else {
        Emit([Inject(packet)]);
      }
    }

    /** cb_udp_packet */
    method UdpPacketReceived(sid: u16, remote: Endpoint, datagram: seq<byte>, unwritten: Addr)
      requires Valid()
      modifies this
      ensures Valid()
      ensures var r := Step(old(Abs()), UdpIn(sid, remote, datagram, unwritten));
              Abs() == r.t && out == old(out) + r.out
    {
      if sid !in udp {
        return;
      }
      if remote.addrType != ADDR_TYPE_IPV4 {
        return;
      }
      var u := udp[sid];
      var pkt := new byte[PACKET_BUF];
      if |datagram| + IPV4_HEADER_MIN + UDP_HEADER_LEN > PACKET_BUF {
        return;
      }
      var src: Addr := (remote.addr + unwritten)[..4];
      ghost var o := pkt[..];
      var n := BuildUdp(pkt, src, remote.port, u.localAddr, u.localPort, ipId, 64, datagram);
      OverwriteSlice(o, 0, Ipv4.UdpPacket(src, remote.port, u.localAddr, u.localPort, ipId, 64, datagram));
      ipId := Low16((ipId as int) + 1);
      if n < 0 {
        return;
      }
      InjectPacket(pkt[..n]);
    }

    /** cb_udp_close */
    method UdpCloseReceived(sid: u16)
      requires Valid()
      modifies this, portToStream
      ensures Valid()
      ensures var r := Step(old(Abs()), UdpCloseIn(sid)); Abs() == r.t && out == old(out) + r.out
    {
      UdpStreamFree(sid);
    }

    /** One connection of handle_tcp_accept. */
    method TcpAccepted(fd: nat, orig: Option<(Addr, u16)>, sent: bool)
      requires Valid()
      modifies this
      ensures Valid()
      ensures var r := Step(old(Abs()), Accept(fd, orig, sent)); Abs() == r.t && out == old(out) + r.out
    {
      if orig.None? {
        Emit([CloseFd(fd)]);
        return;
      }
      var sid := AllocStreamId();
      if sid == 0 {
        Emit([CloseFd(fd)]);
        return;
      }
      tcp := tcp[sid := TcpStream(sid, fd, false, false, false)];
      Emit([ToMux(TcpOpen(sid, Endpoint(ADDR_TYPE_IPV4, orig.value.1, orig.value.0)))]);
      if !sent {
        TcpStreamFree(sid);
      }
    }

    /** handle_tcp_accept, accept4 answering each call from input. */
    method TcpAcceptable(input: seq<Accepted>) returns (rc: int)
      requires Valid()
      modifies this
      ensures Valid()
      ensures var (r, n) := AcceptLoop(old(Abs()), input, 0); Abs() == r.t && out == old(out) + r.out && rc == n
    {
      var k := 0;
      while k < |input|
        invariant Valid() && 0 <= k <= |input|
        invariant var (whole, n) := AcceptLoop(old(Abs()), input, 0);
                  var (rest, m) := AcceptLoop(Abs(), input, k);
                  whole.t == rest.t && old(out) + whole.out == out + rest.out && n == m
      {
        var a := input[k];
        k := k + 1;
        match a {
          case NoneWaiting =>
            return 0;
          case AcceptFailed =>
            return -1;
          case AcceptInterrupted =>
            continue;
          case Connection(fd, orig, sent) =>
            TcpAccepted(fd, orig, sent);
        }
      }
      rc := 0;
    }

    /** handle_outbound_udp_packet */
    method OutboundUdp(packet: seq<byte>)
      requires Valid()
      modifies this, portToStream
      ensures Valid()
      ensures var r := Step(old(Abs()), UdpOut(packet)); Abs() == r.t && out == old(out) + r.out
    {
      var parsed := ParseUdp(packet);
      if parsed.None? {
        return;
      }
      var v := parsed.value;
      var sid := portToStream[v.srcPort];
      if sid == 0 || sid !in udp {
        sid := AllocStreamId();
        if sid == 0 {
          return;
        }
        udp := udp[sid := UdpStream(sid, v.src, v.srcPort, false)];
        portToStream[v.srcPort] := sid;
        Emit([ToMux(UdpBind(sid))]);
      }
      Emit([ToMux(UdpPacket(sid, Endpoint(ADDR_TYPE_IPV4, v.dstPort, v.dst), packet[v.off..v.off + v.len]))]);
    }

    /** handle_tcp_fd, the socket answering each read from input. */
    method TcpReadable(sid: u16, input: seq<Read>)
      requires Valid()
      modifies this
      ensures Valid()
      ensures var r := Step(old(Abs()), Readable(sid, input)); Abs() == r.t && out == old(out) + r.out
    {
      if sid !in tcp {
        return;
      }
      var k := 0;
      while k < |input|
        invariant Valid() && 0 <= k <= |input| && Abs() == old(Abs())
        invariant var whole := ReadLoop(old(Abs()), sid, input, 0);
                  var rest := ReadLoop(old(Abs()), sid, input, k);
                  whole.t == rest.t && old(out) + whole.out == out + rest.out
      {
        var n := input[k];
        k := k + 1;
        match n {
          case WouldBlock =>
            return;
          case ReadInterrupted =>
            continue;
          case ReadFailed =>
            Emit([ToMux(TcpRst(sid, RST_REASON_PEER_RESET))]);
            TcpStreamFree(sid);
            return;
          case Eof =>
            Emit([ToMux(TcpCloseWr(sid))]);
            tcp := tcp[sid := tcp[sid].(closedLocal := true)];
            if tcp[sid].closedRemote {
              TcpStreamFree(sid);
            }
            return;
          case Chunk(data, sent) =>
            Emit([ToMux(TcpData(sid, data))]);
            if !sent {
              Emit([ToMux(TcpRst(sid, RST_REASON_OTHER))]);
              TcpStreamFree(sid);
              return;
            }
        }
      }
    }
  }
}
