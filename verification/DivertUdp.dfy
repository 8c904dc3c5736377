/** The UDP half of divert.c, effect by effect, and the order in which ids are given out. */
module DivertUdp {
  import opened Bytes
  import opened Frame
  import opened MuxSpec
  import opened Ipv4
  import opened DivertTable
  import opened PacketLayout

  /** The packet's source port has no stream, so the packet opens one if an id is left. */
  predicate Opens(t: Tables, v: View) { t.portToStream[v.srcPort] == 0 }

  /** Exactly what an outbound packet does: nothing if it is no UDP packet or needs a stream and no id is left;
      otherwise its datagram goes to its destination on its port's stream, after a BIND if the packet opens
      that stream, which is then recorded at the packet's source. */
  lemma OutboundExactly(t: Tables, packet: seq<byte>)
    requires Inv(t)
    ensures var r := Step(t, UdpOut(packet));
            match ParseUdp(packet)
            case None => r == Result(t, [])
            case Some(v) =>
              var sid := if Opens(t, v) then AllocId(t) else t.portToStream[v.srcPort];
              var send := ToMux(UdpPacket(sid, Endpoint(1, v.dstPort, v.dst), packet[v.off..v.off + v.len]));
              if sid == 0 then r == Result(t, [])
              else if Opens(t, v) then
                && r.out == [ToMux(UdpBind(sid)), send] && sid !in t.udp && sid !in t.tcp
                && r.t.udp == t.udp[sid := UdpStream(sid, v.src, v.srcPort, false)]
                && r.t.portToStream == t.portToStream[v.srcPort := sid] && r.t.tcp == t.tcp
              else r == Result(t, [send]) && sid in t.udp
  {
    AllocExactly(t);
    if ParseUdp(packet).Some? {
      var v := ParseUdp(packet).value;
      StreamForKeeps(t, v);
      if !Opens(t, v) {
        PortBijection(t, v.srcPort, t.portToStream[v.srcPort]);
      }
    }
  }

  /** The events that end a live UDP stream: a BIND_ACK other than 0, and the peer's UDP_CLOSE. */
  predicate Ends(e: Event, sid: u16) { (e.BindAck? && e.sid == sid && e.status != 0) || e == UdpCloseIn(sid) }

  /** A live UDP stream lives on exactly through all other events, is acknowledged exactly from its first
      BIND_ACK of 0 on, and an ended one leaves no port behind. Neither event sends anything. */
  lemma LivesExactly(t: Tables, e: Event, sid: u16)
    requires Inv(t) && sid in t.udp
    ensures var r := Step(t, e);
            && (sid in r.t.udp <==> !Ends(e, sid))
            && (sid in r.t.udp ==> (r.t.udp[sid].bindAcked <==> t.udp[sid].bindAcked || e == BindAck(sid, 0)))
            && (Ends(e, sid) ==> r.t.portToStream[t.udp[sid].localPort] == 0 && r.out == [])
            && (e == BindAck(sid, 0) ==> r.out == [])
  {
    match e
    case Data(id, data, answers) => if id in t.tcp { WriteKeepsUdp(t, id, data, answers, 0, 0); }
    case Readable(id, input) => if id in t.tcp { ReadKeepsUdp(t, id, input, 0); }
    case Accept(_, _, _) => AllocExactly(t);
    case UdpOut(packet) => OutboundExactly(t, packet);
    case _ =>
  }

  lemma {:induction false} WriteKeepsUdp(t: Tables, sid: u16, data: seq<byte>, answers: seq<Wrote>, off: nat, k: nat)
    requires sid in t.tcp && off <= |data|
    ensures WriteLoop(t, sid, data, answers, off, k).t.udp == t.udp
    decreases if k < |answers| then |answers| - k else 0, |data| - off
  {
    if off < |data| {
      match WroteAt(answers, k, |data| - off)
      case WriteInterrupted => WriteKeepsUdp(t, sid, data, answers, off, k + 1);
      case WriteFailed =>
      case Took(n) => WriteKeepsUdp(t, sid, data, answers, off + n, k + 1);
    }
  }

  lemma {:induction false} ReadKeepsUdp(t: Tables, sid: u16, input: seq<Read>, k: nat)
    requires sid in t.tcp
    ensures ReadLoop(t, sid, input, k).t.udp == t.udp
    decreases |input| - k
  {
    if k < |input| && GoesOn(input[k]) {
      ReadKeepsUdp(t, sid, input, k + 1);
    }
  }

  /** An injected packet, byte by byte: the tun device's address family in front exactly if there is one, a TTL
      of 64, and an identification number that counts up from packet to packet. */
  lemma InjectedLayout(t: Tables, sid: u16, remote: Endpoint, datagram: seq<byte>, unwritten: Addr)
    ensures var r := UdpInStep(t, sid, remote, datagram, unwritten);
            r.out != [] ==>
              && r.t == t.(ipId := (t.ipId + 1) % 0x1_0000)
              && exists p, ipSum, udpSum ::
                   && r.out == [Inject(if t.isTun then [0, 0, 0, 2] + p else p)]
                   && ReplyOf(p, (remote.addr + unwritten)[..4], remote.port, t.udp[sid].localAddr,
                              t.udp[sid].localPort, t.ipId, 64, datagram, ipSum, udpSum)
    ensures UdpInStep(t, sid, remote, datagram, unwritten).out == [] ==>
              UdpInStep(t, sid, remote, datagram, unwritten).t == t
  {
    if sid in t.udp && |datagram| <= 1500 {
      UdpPacketLayout((remote.addr + unwritten)[..4], remote.port, t.udp[sid].localAddr, t.udp[sid].localPort, t.ipId,
                      64, datagram);
    }
  }

  // ----- the order of ids -----

  /** How far id lies ahead of the cursor. */
  function Distance(t: Tables, id: u16): nat { (id - t.nextId) % 0x1_0000 }

  lemma {:induction false} ScanFirst(t: Tables, n: nat, id: u16)
    requires n < PORTS && Scan(t, n) != 0 && id != 0
    requires PORTS - 1 - n <= Distance(t, id) < Distance(t, Scan(t, n))
    ensures InUse(t, id)
    decreases n
  {
    if n > 0 {
      CandidateIndex(t, n, id);
      CandidateDistance(t, n);
      if !(Candidate(t, n) != 0 && !InUse(t, Candidate(t, n))) && Distance(t, id) != PORTS - 1 - n {
        ScanFirst(t, n - 1, id);
      }
    }
  }

  lemma CandidateDistance(t: Tables, n: nat)
    requires 0 < n < PORTS
    ensures Distance(t, Candidate(t, n)) == PORTS - 1 - n
  {
  }

  /** The id given out is the first free one from the cursor on, wrapping around and skipping 0. */
  lemma FirstFree(t: Tables, id: u16)
    requires AllocId(t) != 0 && id != 0 && Distance(t, id) < Distance(t, AllocId(t))
    ensures InUse(t, id)
  {
    ScanFirst(t, |t.portToStream| - 1, id);
  }
}
