/** struct tun_tcp and its entry points, in place; each refines its TunTable step. */
module TunTcp {
  import opened Bytes
  import opened Frame
  import opened MuxSpec
  import opened Ipv4
  import opened TunSegment
  import opened TunTable

  /** The buffers written to the tun device. */
  function WritesOf(out: seq<Out>): seq<seq<byte>> {
    if out == [] then []
    else (if out[0].ToTun? then [TunSegment.Framed(out[0].c, out[0].flags, out[0].payload)] else [])
         + WritesOf(out[1..])
  }

  lemma {:induction false} WritesOfAppend(a: seq<Out>, b: seq<Out>)
    ensures WritesOf(a + b) == WritesOf(a) + WritesOf(b)
  {
    if a == [] {
      assert a + b == b;
    } else {
      assert (a + b)[1..] == a[1..] + b;
      WritesOfAppend(a[1..], b);
    }
  }

  const SEGMENT_BUF := 1072

  class Shim {
    const conns: array<Conn>
    const synAge: array<u16>
    ghost var out: seq<Out>               // what was sent on the mux and written for the tun device
    ghost var tunWrites: seq<seq<byte>>   // the buffers given to write(tun_fd)

    ghost predicate Valid()
      reads this
    {
      conns.Length == MAX_TCP_CONNS == synAge.Length && tunWrites == WritesOf(out)
    }

    ghost function Abs(): Tun
      reads this, conns, synAge
    {
      Tun(conns[..], synAge[..])
    }

    /** tun_tcp_create */
    constructor ()
      ensures Valid() && fresh(conns) && fresh(synAge) && Abs() == EMPTY && out == []
    {
      conns := new Conn[MAX_TCP_CONNS](_ => RESET_CONN);
      synAge := new u16[MAX_TCP_CONNS](_ => 0);
      out, tunWrites := [], [];
    }

    /** conn_find_by_5tuple, conn_find_by_sid and conn_alloc. */
    method FindSlot(q: Query) returns (r: Option<nat>)
      requires Valid()
      ensures r == Find(conns[..], q, 0)
    {
      var i := 0;
      while i < MAX_TCP_CONNS
        invariant 0 <= i <= MAX_TCP_CONNS
        invariant Find(conns[..], q, 0) == Find(conns[..], q, i)
      {
        if Matches(conns[i], q) {
          return Some(i);
        }
        i := i + 1;
      }
      r := None;
    }

    /** A mux_send_* call, whose result the shim ignores. */
    ghost method MuxSend(m: Message)
      requires Valid()
      modifies this`out
      ensures Valid() && out == old(out) + [ToMux(m)]
    {
      WritesOfAppend(out, [ToMux(m)]);
      assert WritesOf([ToMux(m)]) == [] && tunWrites + [] == tunWrites;
      out := out + [ToMux(m)];
    }

    /** write_segment for slot i. A segment too long for its buffer is not written. */
    method WriteSegment(i: nat, flags: byte, payload: seq<byte>)
      requires Valid() && i < MAX_TCP_CONNS
      modifies this, conns
      ensures Valid()
      ensures var c := old(conns[i]);
              if TUN_AF_HDR + IPV4_HEADER_MIN + TcpHeaderLen(flags) + |payload| <= SEGMENT_BUF
              then conns[..] == old(conns[..])[i := Bump(c)] && out == old(out) + [ToTun(c, flags, payload)]
              else conns[..] == old(conns[..]) && out == old(out)
    {
      var buf := new byte[SEGMENT_BUF];
      var c := conns[i];
      var n;
      n, conns[i] := BuildSegment(buf, c, flags, payload);
      if n < 0 {
        return;
      }
      ghost var s := ToTun(c, flags, payload);
      WritesOfAppend(out, [s]);
      assert buf[..n] == TunSegment.Framed(c, flags, payload);
      assert WritesOf([s]) == [TunSegment.Framed(c, flags, payload)] by { assert [s][1..] == []; }
      out, tunWrites := out + [s], tunWrites + [buf[..n]];
    }

    /** write_segment without payload, which always fits. */
    method WriteEmpty(i: nat, flags: byte)
      requires Valid() && i < MAX_TCP_CONNS
      modifies this, conns
      ensures Valid()
      ensures conns[..] == old(conns[..])[i := Bump(old(conns[i]))]
      ensures out == old(out) + [ToTun(old(conns[i]), flags, [])]
    {
      WriteSegment(i, flags, []);
    }

    /** The part of tun_tcp_handle_packet after a slot was found for a packet without SYN. */
    method ArriveOn(i: nat, p: TcpPacket)
      requires Valid() && i < MAX_TCP_CONNS
      modifies this, conns
      ensures Valid()
      ensures conns[..] == old(conns[..])[i := ConnArrive(old(conns[i]), p).0]
      ensures out == old(out) + ConnArrive(old(conns[i]), p).1
    {
      if Has(p.flags, TCP_FLAG_RST) {
        MuxSend(TcpRst(conns[i].streamId, RST_REASON_PEER_RESET));
        conns[i] := RESET_CONN;
        return;
      }
      PayloadOn(i, p);
      FinOn(i, p);
    }

    method PayloadOn(i: nat, p: TcpPacket)
      requires Valid() && i < MAX_TCP_CONNS
      modifies this, conns
      ensures Valid()
      ensures conns[..] == old(conns[..])[i := TakePayload(old(conns[i]), p).0]
      ensures out == old(out) + TakePayload(old(conns[i]), p).1
    {
      if conns[i].state == SynRcvd {
        if Has(p.flags, TCP_FLAG_ACK) {
          conns[i] := conns[i].(state := Estab);
        }
      }
      if |p.payload| > 0 {
        MuxSend(TcpData(conns[i].streamId, p.payload));
        conns[i] := conns[i].(peerSeqNext := Add32(p.seqNo, |p.payload|));
        WriteEmpty(i, TCP_FLAG_ACK);
      }
    }

    method FinOn(i: nat, p: TcpPacket)
      requires Valid() && i < MAX_TCP_CONNS
      modifies this, conns
      ensures Valid()
      ensures conns[..] == old(conns[..])[i := TakeFin(old(conns[i]), p).0]
      ensures out == old(out) + TakeFin(old(conns[i]), p).1
    {
      if Has(p.flags, TCP_FLAG_FIN) {
        conns[i] := conns[i].(peerSeqNext := Add32(p.seqNo, |p.payload| + 1));
        MuxSend(TcpCloseWr(conns[i].streamId));
        WriteEmpty(i, TCP_FLAG_ACK);
        if conns[i].state == FinRemote {
          conns[i] := conns[i].(state := Closing);
          conns[i] := RESET_CONN;
        } else {
          conns[i] := conns[i].(state := FinLocal);
        }
      }
    }

    /** tun_tcp_handle_packet: what cannot be parsed changes nothing. */
    method HandlePacket(ip: seq<byte>)
      requires Valid()
      modifies this, conns
      ensures Valid()
      ensures var p := ParseTcp(ip);
              if p.None? then Abs() == old(Abs()) && out == old(out)
              else var r := Step(old(Abs()), Arrive(p.value)); Abs() == r.tun && out == old(out) + r.out
    {
      var parsed := ParseTcp(ip);
      if parsed.None? {
        return;
      }
      var p := parsed.value;
      if Has(p.flags, TCP_FLAG_SYN) {
        var existing := FindSlot(TupleOfPacket(p));
        if existing.Some? {
          return;
        }
        var slot := FindSlot(Free);
        if slot.None? {
          return;
        }
        conns[slot.value] := NewConn(slot.value, p);
        MuxSend(TcpOpen(conns[slot.value].streamId, Endpoint(ADDR_TYPE_IPV4, p.dstPort, p.dstIp)));
        return;
      }
      var c := FindSlot(TupleOfPacket(p));
      if c.None? {
        return;
      }
      ArriveOn(c.value, p);
    }

    /** tun_tcp_on_tcp_open_ack */
    method TcpOpenAcked(sid: u16, status: u16) returns (handled: bool)
      requires Valid()
      modifies this, conns
      ensures Valid() && handled == Find(old(conns[..]), BySid(sid), 0).Some?
      ensures var r := Step(old(Abs()), OnOpenAck(sid, status)); Abs() == r.tun && out == old(out) + r.out
    {
      var c := FindSlot(BySid(sid));
      if c.None? {
        return false;
      }
      if status != 0 {
        WriteEmpty(c.value, RST_ACK);
        conns[c.value] := RESET_CONN;
        return true;
      }
      WriteEmpty(c.value, SYN_ACK);
      conns[c.value] := conns[c.value].(ourSeqNext := Add32(conns[c.value].ourSeqNext, 1));
      handled := true;
    }

    /** One pass of tun_tcp_on_tcp_data's loop. */
    method SendPiece(i: nat, piece: seq<byte>)
      requires Valid() && i < MAX_TCP_CONNS && |piece| <= OUR_MSS
      modifies this, conns
      ensures Valid()
      ensures conns[..] == old(conns[..])[i := Sent(old(conns[i]), |piece|)]
      ensures out == old(out) + [ToTun(old(conns[i]), PSH_ACK, piece)]
    {
      WriteSegment(i, PSH_ACK, piece);
      conns[i] := conns[i].(ourSeqNext := Add32(conns[i].ourSeqNext, |piece|));
    }

    /** The loop of tun_tcp_on_tcp_data. */
    method SendPieces(i: nat, data: seq<byte>)
      requires Valid() && i < MAX_TCP_CONNS
      modifies this, conns
      ensures Valid()
      ensures conns[..] == old(conns[..])[i := ConnData(old(conns[i]), data).0]
      ensures out == old(out) + ConnData(old(conns[i]), data).1
    {
      var p := data;
      while |p| > 0
        invariant Valid()
        invariant conns[..] == old(conns[..])[i := conns[i]]
        invariant ConnData(conns[i], p).0 == ConnData(old(conns[i]), data).0
        invariant out + ConnData(conns[i], p).1 == old(out) + ConnData(old(conns[i]), data).1
      {
        var take := Take(p);
        SendPiece(i, p[..take]);
        p := p[take..];
      }
    }

    /** tun_tcp_on_tcp_data */
    method TcpDataReceived(sid: u16, data: seq<byte>) returns (handled: bool)
      requires Valid()
      modifies this, conns
      ensures Valid() && handled == Find(old(conns[..]), BySid(sid), 0).Some?
      ensures var r := Step(old(Abs()), OnData(sid, data)); Abs() == r.tun && out == old(out) + r.out
    {
      var slot := FindSlot(BySid(sid));
      if slot.None? {
        return false;
      }
      SendPieces(slot.value, data);
      handled := true;
    }

    /** tun_tcp_on_tcp_close_wr */
    method TcpCloseWrReceived(sid: u16) returns (handled: bool)
      requires Valid()
      modifies this, conns
      ensures Valid() && handled == Find(old(conns[..]), BySid(sid), 0).Some?
      ensures var r := Step(old(Abs()), OnCloseWr(sid)); Abs() == r.tun && out == old(out) + r.out
    {
      var slot := FindSlot(BySid(sid));
      if slot.None? {
        return false;
      }
      var i := slot.value;
      WriteEmpty(i, FIN_ACK);
      conns[i] := conns[i].(ourSeqNext := Add32(conns[i].ourSeqNext, 1));
      if conns[i].state == FinLocal {
        conns[i] := conns[i].(state := Closing);
        conns[i] := RESET_CONN;
      } else {
        conns[i] := conns[i].(state := FinRemote);
      }
      handled := true;
    }

    /** tun_tcp_on_tcp_rst */
    method TcpRstReceived(sid: u16) returns (handled: bool)
      requires Valid()
      modifies this, conns
      ensures Valid() && handled == Find(old(conns[..]), BySid(sid), 0).Some?
      ensures var r := Step(old(Abs()), OnRst(sid)); Abs() == r.tun && out == old(out) + r.out
    {
      var slot := FindSlot(BySid(sid));
      if slot.None? {
        return false;
      }
      WriteEmpty(slot.value, RST_ACK);
      conns[slot.value] := RESET_CONN;
      handled := true;
    }

    /** One pass of tun_tcp_sweep's loop. */
    method SweepSlot(i: nat)
      requires Valid() && i < MAX_TCP_CONNS
      modifies this, conns, synAge
      ensures Valid()
      ensures conns[..] == old(conns[..])[i := ConnSweep(old(conns[i]), old(synAge[i])).0]
      ensures synAge[..] == old(synAge[..])[i := ConnSweep(old(conns[i]), old(synAge[i])).1]
      ensures out == old(out) + ConnSweep(old(conns[i]), old(synAge[i])).2
    {
      if conns[i].state == SynRcvd {
        synAge[i] := Low16((synAge[i] as int) + 1);
        if synAge[i] > SYN_RCVD_MAX_AGE {
          MuxSend(TcpRst(conns[i].streamId, RST_REASON_OTHER));
          conns[i] := RESET_CONN;
          synAge[i] := 0;
        }
      } else {
        synAge[i] := 0;
      }
    }

    /** tun_tcp_sweep */
    method DoSweep()
      requires Valid()
      modifies this, conns, synAge
      ensures Valid()
      ensures var r := Step(old(Abs()), Sweep); Abs() == r.tun && out == old(out) + r.out
    {
      ghost var t := Abs();
      var i := 0;
      while i < MAX_TCP_CONNS
        invariant 0 <= i <= MAX_TCP_CONNS && Valid()
        invariant Abs() == SweepTo(t, i).tun
        invariant out == old(out) + SweepTo(t, i).out
      {
        SweepSlot(i);
        i := i + 1;
      }
      assert Step(t, Sweep) == SweepTo(t, i);
    }
  }
}
