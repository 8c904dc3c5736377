/** panctl/divert.c as a state machine: the stream tables, the port map and the id allocator. */
module DivertTable {
  import opened Bytes
  import opened Frame
  import opened MuxSpec
  import opened Ipv4

  const PORTS := 0x1_0000

  /** udp_port_to_stream: a stream id per port, 0 meaning none. */
  type PortMap = s: seq<u16> | |s| == PORTS witness seq(PORTS, _ => 0)

  /** next_stream_id, which a successful allocation sets to one past the id. */
  type IdCursor = n: nat | n <= PORTS

  /** struct tcp_stream and struct udp_stream */
  datatype TcpStream = TcpStream(streamId: u16, fd: nat, openAcked: bool, closedLocal: bool, closedRemote: bool)
  datatype UdpStream = UdpStream(streamId: u16, localAddr: Addr, localPort: u16, bindAcked: bool)

  /** struct divert: a stream id absent from a table is a NULL entry. */
  datatype Tables = Tables(tcp: map<u16, TcpStream>, udp: map<u16, UdpStream>, portToStream: PortMap,
                           nextId: IdCursor, ipId: u16, isTun: bool)

  datatype Out =
    | ToMux(msg: Message)
    | Inject(packet: seq<byte>)             // written to the tun device or the divert socket
    | LocalWrite(fd: nat, data: seq<byte>)  // accepted by a local socket
    | ShutdownWr(fd: nat)
    | CloseFd(fd: nat)

  datatype Result = Result(t: Tables, out: seq<Out>)

  /** Answers of write on a local socket, and of read with mux_send_tcp_data's success. */
  datatype Wrote = Took(n: nat) | WriteInterrupted | WriteFailed
  datatype Read = Chunk(data: seq<byte>, sent: bool) | Eof | ReadInterrupted | WouldBlock | ReadFailed

  /** Answers of accept4, with getsockname's answer and mux_send_tcp_open's success. */
  datatype Accepted =
    | Connection(fd: nat, orig: Option<(Addr, u16)>, sent: bool)
    | AcceptInterrupted | NoneWaiting | AcceptFailed

  datatype Event =
    | OpenAck(sid: u16, status: u16)
    | Data(sid: u16, data: seq<byte>, answers: seq<Wrote>)
    | CloseWr(sid: u16)
    | Rst(sid: u16)
    | BindAck(sid: u16, status: u16)
    | UdpIn(sid: u16, remote: Endpoint, datagram: seq<byte>, unwritten: Addr)
    | UdpCloseIn(sid: u16)
    | Accept(fd: nat, orig: Option<(Addr, u16)>, sent: bool)
    | UdpOut(packet: seq<byte>)
    | Readable(sid: u16, input: seq<Read>)

  // ----- allocation -----

  predicate InUse(t: Tables, id: u16) { id in t.tcp || id in t.udp }

  /** alloc_stream_id with n candidates left to try; 0 if none is free. */
  function Scan(t: Tables, n: nat): u16
    requires n < PORTS
  {
    if n == 0 then 0
    else
      var id := Candidate(t, n);
      if id != 0 && !InUse(t, id) then id else Scan(t, n - 1)
  }

  /** The candidate tried when n are left. */
  function Candidate(t: Tables, n: nat): u16
    requires n < PORTS
  {
    (t.nextId + (PORTS - 1 - n)) % PORTS
  }

  function AllocId(t: Tables): u16
  {
    Scan(t, |t.portToStream| - 1)
  }

  /** The one id a scan does not reach. */
  function Skipped(t: Tables): u16 { (t.nextId + PORTS - 1) % PORTS }

  lemma {:induction false} ScanFinds(t: Tables, n: nat, id: u16)
    requires n < PORTS
    ensures var r := Scan(t, n); r != 0 ==> !InUse(t, r)
    ensures var r := Scan(t, n);
            r == 0 && id != 0 && (id - t.nextId) % PORTS >= PORTS - 1 - n && id != Skipped(t) ==> InUse(t, id)
  {
    if n > 0 {
      ScanFinds(t, n - 1, id);
      CandidateIndex(t, n, id);
    }
  }

  lemma CandidateIndex(t: Tables, n: nat, id: u16)
    requires 0 < n < PORTS
    ensures (id - t.nextId) % PORTS == PORTS - 1 - n ==> Candidate(t, n) == id
    ensures id != Skipped(t) ==> (id - t.nextId) % PORTS != PORTS - 1
  {
    var k := (id - t.nextId) % PORTS;
    assert id == (t.nextId + k) % PORTS;
  }

  /** alloc_stream_id returns an id that is free in both tables, and 0 exactly if every nonzero id
      but the one just before next_stream_id is in use, whether or not that one is. */
  lemma AllocExactly(t: Tables)
    ensures AllocId(t) != 0 ==> !InUse(t, AllocId(t))
    ensures AllocId(t) == 0 <==> forall id: u16 | id != 0 && id != Skipped(t) :: InUse(t, id)
  {
    var n := |t.portToStream| - 1;
    forall id: u16 | id != 0 && id != Skipped(t)
      ensures AllocId(t) == 0 ==> InUse(t, id)
    {
      ScanFinds(t, n, id);
      CandidateIndex(t, n, id);
    }
    ScanFinds(t, n, 0);
    ScanSkips(t, n);
  }

  lemma {:induction false} ScanSkips(t: Tables, n: nat)
    requires n < PORTS
    ensures Scan(t, n) != Skipped(t) || Scan(t, n) == 0
  {
    if n > 0 {
      ScanSkips(t, n - 1);
      assert Candidate(t, n) != Skipped(t);
    }
  }

  // ----- steps -----

  /** tcp_stream_free */
  function FreeTcp(t: Tables, sid: u16): Result {
    if sid !in t.tcp then Result(t, []) else Result(t.(tcp := t.tcp - {sid}), [CloseFd(t.tcp[sid].fd)])
  }

  /** udp_stream_free */
  function FreeUdp(t: Tables, sid: u16): Tables
  {
    if sid !in t.udp then t
    else
      var p := t.udp[sid].localPort;
      t.(udp := t.udp - {sid},
         portToStream := if t.portToStream[p] == sid then t.portToStream[p := 0] else t.portToStream)
  }

  function Then(out: seq<Out>, r: Result): Result { r.(out := out + r.out) }

  /** The k-th answer of a socket described by a list of any length; beyond it, all is taken. */
  function WroteAt(answers: seq<Wrote>, k: nat, left: nat): Wrote {
    if k >= |answers| then Took(left)
    else match answers[k]
      case Took(n) => Took(if n <= left then n else left)
      case other => other
  }

  /** The loop of cb_tcp_data, off bytes having been taken after k answers. */
  function WriteLoop(t: Tables, sid: u16, data: seq<byte>, answers: seq<Wrote>, off: nat, k: nat): Result
    requires sid in t.tcp && off <= |data|
    decreases if k < |answers| then |answers| - k else 0, |data| - off
  {
    if off == |data| then Result(t, [])
    else match WroteAt(answers, k, |data| - off)
      case WriteInterrupted => WriteLoop(t, sid, data, answers, off, k + 1)
      case WriteFailed => Then([ToMux(TcpRst(sid, RST_REASON_PEER_RESET))], FreeTcp(t, sid))
      case Took(n) =>
        Then([LocalWrite(t.tcp[sid].fd, data[off..off + n])], WriteLoop(t, sid, data, answers, off + n, k + 1))
  }

  function CloseWrStep(t: Tables, sid: u16): Result {
    if sid !in t.tcp then Result(t, [])
    else
      var s := t.tcp[sid];
      var t' := t.(tcp := t.tcp[sid := s.(closedRemote := true)]);
      Then([ShutdownWr(s.fd)], if s.closedLocal then FreeTcp(t', sid) else Result(t', []))
  }

  const PACKET_BUF := 1528

  /** cb_udp_packet; unwritten stands for the address bytes a short address leaves unset. */
  function UdpInStep(t: Tables, sid: u16, remote: Endpoint, datagram: seq<byte>, unwritten: Addr): Result {
    if sid !in t.udp || remote.addrType != ADDR_TYPE_IPV4 || |datagram| + 28 > PACKET_BUF then Result(t, [])
    else
      var u := t.udp[sid];
      var packet := Ipv4.UdpPacket((remote.addr + unwritten)[..4], remote.port, u.localAddr, u.localPort,
                                   t.ipId, 64, datagram);
      Result(t.(ipId := Low16(t.ipId + 1)), [Inject(if t.isTun then [0, 0, 0, 2] + packet else packet)])
  }

  /** One connection of handle_tcp_accept: orig is getsockname's answer, sent mux_send_tcp_open's. */
  function AcceptStep(t: Tables, fd: nat, orig: Option<(Addr, u16)>, sent: bool): Result
  {
    if orig.None? then Result(t, [CloseFd(fd)])
    else
      var sid := AllocId(t);
      if sid == 0 then Result(t, [CloseFd(fd)])
      else
        var t' := t.(tcp := t.tcp[sid := TcpStream(sid, fd, false, false, false)], nextId := sid + 1);
        var open := [ToMux(TcpOpen(sid, Endpoint(ADDR_TYPE_IPV4, orig.value.1, orig.value.0)))];
        Then(open, if sent then Result(t', []) else FreeTcp(t', sid))
  }

  /** The stream of an outbound packet: the one its source port is mapped to, or a new one (0 if
      there is none left). */
  function StreamFor(t: Tables, v: View): (u16, Tables, seq<Out>)
  {
    var known := t.portToStream[v.srcPort];
    if known != 0 && known in t.udp then (known, t, [])
    else
      var sid := AllocId(t);
      if sid == 0 then (0, t, [])
      else (sid, t.(udp := t.udp[sid := UdpStream(sid, v.src, v.srcPort, false)],
                    portToStream := t.portToStream[v.srcPort := sid], nextId := sid + 1),
            [ToMux(UdpBind(sid))])
  }

  /** handle_outbound_udp_packet */
  function UdpOutStep(t: Tables, packet: seq<byte>): Result
  {
    match ParseUdp(packet)
    case None => Result(t, [])
    case Some(v) =>
      var (sid, t', bind) := StreamFor(t, v);
      if sid == 0 then Result(t', [])
      else Result(t', bind + [ToMux(UdpPacket(sid, Endpoint(ADDR_TYPE_IPV4, v.dstPort, v.dst),
                                                      packet[v.off..v.off + v.len]))])
  }

  /** The loop of handle_tcp_fd from read answer k on. */
  function ReadLoop(t: Tables, sid: u16, input: seq<Read>, k: nat): Result
    requires sid in t.tcp
    decreases |input| - k
  {
    if k >= |input| then Result(t, [])
    else match input[k]
      case WouldBlock => Result(t, [])
      case ReadInterrupted => ReadLoop(t, sid, input, k + 1)
      case ReadFailed => Then([ToMux(TcpRst(sid, RST_REASON_PEER_RESET))], FreeTcp(t, sid))
      case Eof =>
        var s := t.tcp[sid];
        var t' := t.(tcp := t.tcp[sid := s.(closedLocal := true)]);
        Then([ToMux(TcpCloseWr(sid))], if s.closedRemote then FreeTcp(t', sid) else Result(t', []))
      case Chunk(data, sent) =>
        if sent then Then([ToMux(TcpData(sid, data))], ReadLoop(t, sid, input, k + 1))
        else Then([ToMux(TcpData(sid, data)), ToMux(TcpRst(sid, RST_REASON_OTHER))], FreeTcp(t, sid))
  }

  /** The loop of handle_tcp_accept from answer k on, and its return value. */
  function AcceptLoop(t: Tables, input: seq<Accepted>, k: nat): (Result, int)
    decreases |input| - k
  {
    if k >= |input| then (Result(t, []), 0)
    else match input[k]
      case NoneWaiting => (Result(t, []), 0)
      case AcceptFailed => (Result(t, []), -1)
      case AcceptInterrupted => AcceptLoop(t, input, k + 1)
      case Connection(fd, orig, sent) =>
        var r := AcceptStep(t, fd, orig, sent);
        var (rest, rc) := AcceptLoop(r.t, input, k + 1);
        (Then(r.out, rest), rc)
  }

  function Step(t: Tables, e: Event): Result
  {
    match e
    case OpenAck(sid, status) =>
      if sid !in t.tcp then Result(t, [])
      else if status != 0 then FreeTcp(t, sid)
      else Result(t.(tcp := t.tcp[sid := t.tcp[sid].(openAcked := true)]), [])
    case Data(sid, data, answers) => if sid !in t.tcp then Result(t, []) else WriteLoop(t, sid, data, answers, 0, 0)
    case CloseWr(sid) => CloseWrStep(t, sid)
    case Rst(sid) => FreeTcp(t, sid)
    case BindAck(sid, status) =>
      if sid !in t.udp then Result(t, [])
      else if status != 0 then Result(FreeUdp(t, sid), [])
      else Result(t.(udp := t.udp[sid := t.udp[sid].(bindAcked := true)]), [])
    case UdpIn(sid, remote, datagram, unwritten) => UdpInStep(t, sid, remote, datagram, unwritten)
    case UdpCloseIn(sid) => Result(FreeUdp(t, sid), [])
    case Accept(fd, orig, sent) => AcceptStep(t, fd, orig, sent)
    case UdpOut(packet) => UdpOutStep(t, packet)
    case Readable(sid, input) => if sid !in t.tcp then Result(t, []) else ReadLoop(t, sid, input, 0)
  }

  // ----- the invariant -----

  /** Live TCP and UDP ids are disjoint and nonzero, no TCP stream has both halves closed, and the
      nonzero entries of the port map are exactly the live UDP streams, each at its own port. */
  ghost predicate Inv(t: Tables) {
    && t.tcp.Keys !! t.udp.Keys && !InUse(t, 0)
    && (forall sid <- t.tcp :: t.tcp[sid].streamId == sid && !(t.tcp[sid].closedLocal && t.tcp[sid].closedRemote))
    && (forall sid <- t.udp :: t.udp[sid].streamId == sid && t.portToStream[t.udp[sid].localPort] == sid)
    && (forall p | 0 <= p < PORTS && t.portToStream[p] != 0 ::
          t.portToStream[p] in t.udp && t.udp[t.portToStream[p]].localPort == p)
  }

  /** What any step may do to the UDP stream of an id that is live before and after it. */
  ghost predicate UdpStable(t: Tables, t': Tables) {
    forall sid <- t.udp :: sid in t'.udp ==>
      t'.udp[sid].localAddr == t.udp[sid].localAddr && t'.udp[sid].localPort == t.udp[sid].localPort
  }

  ghost predicate Good(t: Tables, t': Tables) { Inv(t') && UdpStable(t, t') && t'.isTun == t.isTun }

  lemma FreeTcpKeeps(t: Tables, t': Tables, sid: u16)
    requires Inv(t) && sid in t.tcp
    requires sid in t'.tcp && t' == t.(tcp := t'.tcp) && t'.tcp - {sid} == t.tcp - {sid}
    ensures Good(t, FreeTcp(t', sid).t)
  {
  }

  lemma SetTcpKeeps(t: Tables, sid: u16, s: TcpStream)
    requires Inv(t) && sid in t.tcp
    ensures var t' := t.(tcp := t.tcp[sid := s]);
            && Good(t, FreeTcp(t', sid).t)
            && (s.streamId == sid && !(s.closedLocal && s.closedRemote) ==> Good(t, t'))
  {
    var t' := t.(tcp := t.tcp[sid := s]);
    assert t'.tcp - {sid} == t.tcp - {sid};
    FreeTcpKeeps(t, t', sid);
  }

  lemma OpenAckKeeps(t: Tables, sid: u16, status: u16)
    requires Inv(t)
    ensures Good(t, Step(t, OpenAck(sid, status)).t)
  {
    if sid in t.tcp {
      FreeTcpKeeps(t, t, sid);
      SetTcpKeeps(t, sid, t.tcp[sid].(openAcked := true));
    }
  }

  lemma BindAckKeeps(t: Tables, sid: u16, status: u16)
    requires Inv(t)
    ensures Good(t, Step(t, BindAck(sid, status)).t)
  {
    FreeUdpKeeps(t, sid);
  }

  lemma CloseWrKeeps(t: Tables, sid: u16)
    requires Inv(t)
    ensures Good(t, CloseWrStep(t, sid).t)
  {
    if sid in t.tcp {
      SetTcpKeeps(t, sid, t.tcp[sid].(closedRemote := true));
    }
  }

  lemma FreeUdpKeeps(t: Tables, sid: u16)
    requires Inv(t)
    ensures Good(t, FreeUdp(t, sid))
  {
  }

  lemma {:induction false} WriteLoopKeeps(t: Tables, sid: u16, data: seq<byte>, answers: seq<Wrote>, off: nat, k: nat)
    requires Inv(t) && sid in t.tcp && off <= |data|
    ensures Good(t, WriteLoop(t, sid, data, answers, off, k).t)
    decreases if k < |answers| then |answers| - k else 0, |data| - off
  {
    if off < |data| {
      match WroteAt(answers, k, |data| - off)
      case WriteInterrupted => WriteLoopKeeps(t, sid, data, answers, off, k + 1);
      case WriteFailed => FreeTcpKeeps(t, t, sid);
      case Took(n) => WriteLoopKeeps(t, sid, data, answers, off + n, k + 1);
    }
  }

  lemma {:induction false} ReadLoopKeeps(t: Tables, sid: u16, input: seq<Read>, k: nat)
    requires Inv(t) && sid in t.tcp
    ensures Good(t, ReadLoop(t, sid, input, k).t)
    decreases |input| - k
  {
    if k < |input| {
      match input[k]
      case WouldBlock =>
      case ReadInterrupted => ReadLoopKeeps(t, sid, input, k + 1);
      case ReadFailed => FreeTcpKeeps(t, t, sid);
      case Eof => SetTcpKeeps(t, sid, t.tcp[sid].(closedLocal := true));
      case Chunk(data, sent) =>
        if sent { ReadLoopKeeps(t, sid, input, k + 1); } else { FreeTcpKeeps(t, t, sid); }
    }
  }

  lemma AcceptKeeps(t: Tables, fd: nat, orig: Option<(Addr, u16)>, sent: bool)
    requires Inv(t)
    ensures Good(t, AcceptStep(t, fd, orig, sent).t)
  {
    AllocExactly(t);
  }

  /** The packet opens a stream, or its source port's stream was opened from its source address. */
  predicate SourceMatches(t: Tables, v: View) {
    var sid := t.portToStream[v.srcPort];
    sid == 0 || (sid in t.udp && t.udp[sid].localAddr == v.src)
  }

  lemma StreamForKeeps(t: Tables, v: View)
    requires Inv(t)
    ensures var (sid, t', out) := StreamFor(t, v);
            && Good(t, t')
            && (sid != 0 ==> sid in t'.udp && t'.udp[sid].localPort == v.srcPort)
            && (sid != 0 && t.portToStream[v.srcPort] == 0 ==> sid !in t.udp)
            && (sid != 0 ==> (t'.udp[sid].localAddr == v.src <==> SourceMatches(t, v)))
  {
    AllocExactly(t);
  }

  lemma StepKeeps(t: Tables, e: Event)
    requires Inv(t)
    ensures Good(t, Step(t, e).t)
  {
    match e
    case OpenAck(sid, status) => OpenAckKeeps(t, sid, status);
    case Data(sid, data, answers) => if sid in t.tcp { WriteLoopKeeps(t, sid, data, answers, 0, 0); }
    case CloseWr(sid) => CloseWrKeeps(t, sid);
    case Rst(sid) => if sid in t.tcp { FreeTcpKeeps(t, t, sid); }
    case BindAck(sid, status) => BindAckKeeps(t, sid, status);
    case UdpIn(sid, remote, datagram, unwritten) =>
    case UdpCloseIn(sid) => FreeUdpKeeps(t, sid);
    case Accept(fd, orig, sent) => AcceptKeeps(t, fd, orig, sent);
    case UdpOut(packet) => if ParseUdp(packet).Some? { StreamForKeeps(t, ParseUdp(packet).value); }
    case Readable(sid, input) => if sid in t.tcp { ReadLoopKeeps(t, sid, input, 0); }
  }

  function Run(t: Tables, es: seq<Event>): Tables
    decreases |es|
  {
    if es == [] then t else Run(Step(t, es[0]).t, es[1..])
  }

  /** The connections the accept loop takes, as events. */
  function Taken(input: seq<Accepted>): seq<Event> {
    if input == [] || input[0].NoneWaiting? || input[0].AcceptFailed? then []
    else (if input[0].Connection? then [Accept(input[0].fd, input[0].orig, input[0].sent)] else []) + Taken(input[1..])
  }

  /** Everything a run does. */
  function RunOut(t: Tables, es: seq<Event>): seq<Out>
    decreases |es|
  {
    if es == [] then [] else Step(t, es[0]).out + RunOut(Step(t, es[0]).t, es[1..])
  }

  /** Whether the first answer that ends the loop is a hard error. */
  predicate FailsIn(input: seq<Accepted>) {
    input != [] && (input[0].AcceptFailed? || (!input[0].NoneWaiting? && FailsIn(input[1..])))
  }

  /** The accept loop is a run of its connections, so whatever holds of runs holds through it; it reports -1
      exactly for a hard error. */
  lemma {:induction false} AcceptLoopIsRun(t: Tables, input: seq<Accepted>, k: nat)
    requires k <= |input|
    ensures var (r, rc) := AcceptLoop(t, input, k);
            && r == Result(Run(t, Taken(input[k..])), RunOut(t, Taken(input[k..])))
            && rc == if FailsIn(input[k..]) then -1 else 0
    decreases |input| - k
  {
    if k < |input| && !input[k].NoneWaiting? && !input[k].AcceptFailed? {
      assert input[k..][1..] == input[k + 1..];
      if input[k].Connection? {
        var e := Accept(input[k].fd, input[k].orig, input[k].sent);
        assert ([e] + Taken(input[k + 1..]))[1..] == Taken(input[k + 1..]);
        AcceptLoopIsRun(Step(t, e).t, input, k + 1);
      } else {
        assert [] + Taken(input[k + 1..]) == Taken(input[k + 1..]);
        AcceptLoopIsRun(t, input, k + 1);
      }
    }
  }

  /** divert_create */
  function Fresh(isTun: bool): Tables { Tables(map[], map[], seq(PORTS, _ => 0), 1, 1, isTun) }

  /** The tables' theorem: in every state any run reaches. */
  lemma {:induction false} RunKeeps(t: Tables, es: seq<Event>)
    requires Inv(t)
    ensures Inv(Run(t, es)) && Run(t, es).isTun == t.isTun
    decreases |es|
  {
    if es != [] {
      StepKeeps(t, es[0]);
      RunKeeps(Step(t, es[0]).t, es[1..]);
    }
  }

  lemma Reachable(isTun: bool, es: seq<Event>)
    ensures Inv(Fresh(isTun)) && Inv(Run(Fresh(isTun), es))
  {
    RunKeeps(Fresh(isTun), es);
  }

  /** The port map and the streams' recorded ports are inverse to each other. */
  lemma PortBijection(t: Tables, p: u16, sid: u16)
    requires Inv(t) && sid != 0
    ensures t.portToStream[p] == sid <==> sid in t.udp && t.udp[sid].localPort == p
  {
  }

  // ----- UDP replies -----

  ghost predicate LiveThroughout(t: Tables, es: seq<Event>, sid: u16)
    decreases |es|
  {
    sid in t.udp && (es != [] ==> LiveThroughout(Step(t, es[0]).t, es[1..], sid))
  }

  /** A stream keeps its address and port for as long as it lives. */
  lemma {:induction false} RunKeepsStream(t: Tables, es: seq<Event>, sid: u16)
    requires Inv(t) && LiveThroughout(t, es, sid)
    ensures var t' := Run(t, es);
            && sid in t'.udp && t'.udp[sid].localAddr == t.udp[sid].localAddr
            && t'.udp[sid].localPort == t.udp[sid].localPort
    decreases |es|
  {
    if es != [] {
      StepKeeps(t, es[0]);
      RunKeepsStream(Step(t, es[0]).t, es[1..], sid);
    }
  }

  /** The IPv4 packet of an injection. */
  function Unframed(t: Tables, buf: seq<byte>): seq<byte> {
    if t.isTun && |buf| >= 4 then buf[4..] else buf
  }

  /** A reply is injected exactly if its stream is live, it names an IPv4 endpoint and it has at most
      1500 bytes; what is injected parses to the reply's endpoint, the stream's recorded local
      address and port, and the reply's bytes. */
  lemma InjectedExactly(t: Tables, sid: u16, remote: Endpoint, datagram: seq<byte>, unwritten: Addr)
    ensures var out := UdpInStep(t, sid, remote, datagram, unwritten).out;
            var n := |datagram|;
            && (out != [] <==> sid in t.udp && remote.addrType == ADDR_TYPE_IPV4 && n <= 1500)
            && (out != [] ==>
                  && |out| == 1 && out[0].Inject?
                  && var p := Unframed(t, out[0].packet);
                     && ParseUdp(p) == Some(View((remote.addr + unwritten)[..4], t.udp[sid].localAddr, remote.port,
                                                 t.udp[sid].localPort, 28 + n, 8 + n, 28, n))
                     && p[28..28 + n] == datagram)
  {
    if sid in t.udp && remote.addrType == ADDR_TYPE_IPV4 && |datagram| <= 1500 {
      var u := t.udp[sid];
      var src := (remote.addr + unwritten)[..4];
      var p := Ipv4.UdpPacket(src, remote.port, u.localAddr, u.localPort, t.ipId, 64, datagram);
      assert p + [] == p;
      UdpRoundTrip(src, remote.port, u.localAddr, u.localPort, t.ipId, 64, datagram, []);
      assert Unframed(t, if t.isTun then [0, 0, 0, 2] + p else p) == p;
    }
  }

  /** The stream id an outbound packet was sent on. */
  function UsedStream(out: seq<Out>): u16 {
    if out != [] && out[|out| - 1].ToMux? && out[|out| - 1].msg.UdpPacket? then out[|out| - 1].msg.sid else 0
  }

  /** The mirror: whatever happens while its stream lives, a reply from the destination of an outbound
      packet, on the stream id the packet used, is injected as a packet from that destination to the
      stream's recorded address (the packet's own source exactly if the packet opened the stream or came
      from the address that did) and to the packet's source port, with the reply's bytes. The packet itself
      went out to that destination with its own datagram. */
  lemma UdpMirror(t: Tables, packet: seq<byte>, es: seq<Event>, datagram: seq<byte>, unwritten: Addr)
    requires Inv(t) && ParseUdp(packet).Some? && |datagram| <= 1500
    requires var r := UdpOutStep(t, packet);
             UsedStream(r.out) != 0 && LiveThroughout(r.t, es, UsedStream(r.out))
    ensures var r := UdpOutStep(t, packet);
            var v := ParseUdp(packet).value;
            var sid := UsedStream(r.out);
            var t' := Run(r.t, es);
            var out := UdpInStep(t', sid, Endpoint(ADDR_TYPE_IPV4, v.dstPort, v.dst), datagram, unwritten).out;
            var n := |datagram|;
            && r.out[|r.out| - 1] == ToMux(UdpPacket(sid, Endpoint(ADDR_TYPE_IPV4, v.dstPort, v.dst),
                                                  packet[v.off..v.off + v.len]))
            && sid in r.t.udp && |out| == 1 && out[0].Inject?
            && var p := Unframed(t', out[0].packet);
               && ParseUdp(p) == Some(View(v.dst, r.t.udp[sid].localAddr, v.dstPort, v.srcPort, 28 + n, 8 + n, 28, n))
               && p[28..28 + n] == datagram
               && (r.t.udp[sid].localAddr == v.src <==> SourceMatches(t, v))
  {
    var r := UdpOutStep(t, packet);
    var v := ParseUdp(packet).value;
    var sid := UsedStream(r.out);
    StreamForKeeps(t, v);
    StepKeeps(t, UdpOut(packet));
    RunKeepsStream(r.t, es, sid);
    InjectedExactly(Run(r.t, es), sid, Endpoint(ADDR_TYPE_IPV4, v.dstPort, v.dst), datagram, unwritten);
    assert (v.dst + unwritten)[..4] == v.dst;
  }

  // ----- local TCP sockets -----

  function LocalBytes(out: seq<Out>): seq<byte> {
    if out == [] then [] else (if out[0].LocalWrite? then out[0].data else []) + LocalBytes(out[1..])
  }

  lemma LocalBytesCons(w: Out, rest: seq<Out>)
    requires w.LocalWrite?
    ensures LocalBytes([w] + rest) == w.data + LocalBytes(rest)
  {
    assert ([w] + rest)[1..] == rest;
  }

  lemma NoLocalBytes(a: Out, b: Out)
    requires !a.LocalWrite? && !b.LocalWrite?
    ensures LocalBytes([a, b]) == []
  {
    assert [a, b][1..] == [b] && [b][1..] == [];
    assert LocalBytes([b]) == LocalBytes([]);
  }

  /** The local socket got a prefix of data; all of it, and nothing else changed, if the stream is
      still there; otherwise the stream was ended with an RST. */
  ghost predicate Delivers(t: Tables, sid: u16, data: seq<byte>, r: Result) {
    && LocalBytes(r.out) <= data
    && (if sid in r.t.tcp then r.t == t && LocalBytes(r.out) == data
        else r.t.tcp == t.tcp - {sid} && ToMux(TcpRst(sid, RST_REASON_PEER_RESET)) in r.out)
  }

  lemma DeliversAfter(t: Tables, sid: u16, w: Out, data: seq<byte>, r: Result)
    requires Delivers(t, sid, data, r) && w.LocalWrite?
    ensures Delivers(t, sid, w.data + data, Then([w], r))
  {
    LocalBytesCons(w, r.out);
  }

  lemma FailureDelivers(t: Tables, sid: u16, data: seq<byte>)
    requires sid in t.tcp
    ensures Delivers(t, sid, data, Then([ToMux(TcpRst(sid, RST_REASON_PEER_RESET))], FreeTcp(t, sid)))
  {
    var rst, close := ToMux(TcpRst(sid, RST_REASON_PEER_RESET)), CloseFd(t.tcp[sid].fd);
    NoLocalBytes(rst, close);
    assert [rst] + [close] == [rst, close] && rst in [rst, close];
  }

  lemma TookDelivers(t: Tables, sid: u16, data: seq<byte>, off: nat, n: nat, r: Result)
    requires sid in t.tcp && off + n <= |data| && Delivers(t, sid, data[off + n..], r)
    ensures Delivers(t, sid, data[off..], Then([LocalWrite(t.tcp[sid].fd, data[off..off + n])], r))
  {
    DeliversAfter(t, sid, LocalWrite(t.tcp[sid].fd, data[off..off + n]), data[off + n..], r);
    assert data[off..] == data[off..off + n] + data[off + n..];
  }

  /** However the local socket cuts and interrupts the writes, it gets a prefix of the data in order,
      and all of it exactly unless a write fails, which also ends the stream. */
  lemma {:induction false} WriteLoopDelivers(t: Tables, sid: u16, data: seq<byte>, answers: seq<Wrote>,
                                             off: nat, k: nat)
    requires sid in t.tcp && off <= |data|
    ensures Delivers(t, sid, data[off..], WriteLoop(t, sid, data, answers, off, k))
    decreases if k < |answers| then |answers| - k else 0, |data| - off
  {
    if off < |data| {
      match WroteAt(answers, k, |data| - off)
      case WriteInterrupted => WriteLoopDelivers(t, sid, data, answers, off, k + 1);
      case WriteFailed => FailureDelivers(t, sid, data[off..]);
      case Took(n) =>
        WriteLoopDelivers(t, sid, data, answers, off + n, k + 1);
        TookDelivers(t, sid, data, off, n, WriteLoop(t, sid, data, answers, off + n, k + 1));
    }
  }

  // ----- reading local TCP sockets -----

  /** The bytes of the TCP_DATA frames offered to the mux on stream sid. */
  function MuxData(out: seq<Out>, sid: u16): seq<byte> {
    if out == [] then []
    else (if out[0].ToMux? && out[0].msg.TcpData? && out[0].msg.sid == sid then out[0].msg.data else [])
         + MuxData(out[1..], sid)
  }

  predicate GoesOn(r: Read) { r.ReadInterrupted? || (r.Chunk? && r.sent) }

  /** The number of answers before the first that ends the loop. */
  function Upto(input: seq<Read>): (n: nat)
    ensures n <= |input| && (n < |input| ==> !GoesOn(input[n]))
    ensures forall i | 0 <= i < n :: GoesOn(input[i])
  {
    if input == [] || !GoesOn(input[0]) then 0 else 1 + Upto(input[1..])
  }

  function ChunkBytes(input: seq<Read>): seq<byte> {
    if input == [] then [] else (if input[0].Chunk? then input[0].data else []) + ChunkBytes(input[1..])
  }

  /** What the answer that ends the loop does to the stream: nothing if there was nothing more to
      read, our half is closed at the end of the input, and the stream is freed if both halves are
      then closed, if the read failed, or if the mux refused the chunk. */
  ghost predicate EndsAs(t: Tables, sid: u16, last: Option<Read>, t': Tables)
    requires sid in t.tcp
  {
    if last.None? || last.value.WouldBlock? then t' == t
    else if last.value.Eof? && !t.tcp[sid].closedRemote then
      t' == t.(tcp := t.tcp[sid := t.tcp[sid].(closedLocal := true)])
    else t' == t.(tcp := t'.tcp) && t'.tcp == t.tcp - {sid}
  }

  lemma MuxDataCons(m: Message, rest: seq<Out>, sid: u16)
    ensures MuxData([ToMux(m)] + rest, sid) == (if m.TcpData? && m.sid == sid then m.data else []) + MuxData(rest, sid)
  {
    assert ([ToMux(m)] + rest)[1..] == rest;
  }

  lemma NoMuxData(out: seq<Out>, sid: u16)
    requires |out| <= 1 && (out != [] ==> !out[0].ToMux?)
    ensures MuxData(out, sid) == []
  {
  }

  /** The answer that ends the loop, if there is one. */
  function LastAnswer(input: seq<Read>): Option<Read> {
    if Upto(input) < |input| then Some(input[Upto(input)]) else None
  }

  /** All bytes read: those of the answers before it, and its own. */
  function BytesRead(input: seq<Read>): seq<byte> {
    ChunkBytes(input[..Upto(input)]) + BytesOf(LastAnswer(input))
  }

  function BytesOf(r: Option<Read>): seq<byte> { if r.Some? && r.value.Chunk? then r.value.data else [] }

  lemma ReadOn(input: seq<Read>)
    requires input != [] && GoesOn(input[0])
    ensures LastAnswer(input) == LastAnswer(input[1..])
    ensures BytesRead(input) == BytesOf(Some(input[0])) + BytesRead(input[1..])
  {
    var n := Upto(input[1..]);
    assert input[..n + 1][1..] == input[1..][..n];
  }

  lemma ReadLast(input: seq<Read>)
    requires input != [] && !GoesOn(input[0])
    ensures LastAnswer(input) == Some(input[0]) && BytesRead(input) == BytesOf(Some(input[0]))
  {
  }

  /** An answer after which the loop goes on. */
  lemma LoopGoesOn(t: Tables, sid: u16, input: seq<Read>, k: nat)
    requires sid in t.tcp && k < |input| && GoesOn(input[k])
    ensures var r, r' := ReadLoop(t, sid, input, k), ReadLoop(t, sid, input, k + 1);
            r.t == r'.t && MuxData(r.out, sid) == BytesOf(Some(input[k])) + MuxData(r'.out, sid)
  {
    if input[k].Chunk? {
      MuxDataCons(TcpData(sid, input[k].data), ReadLoop(t, sid, input, k + 1).out, sid);
    }
  }

  // What each answer that ends the loop makes of it.

  lemma LoopEof(t: Tables, sid: u16, input: seq<Read>, k: nat)
    requires sid in t.tcp && k < |input| && input[k].Eof?
    ensures var r := ReadLoop(t, sid, input, k); MuxData(r.out, sid) == [] && EndsAs(t, sid, Some(input[k]), r.t)
  {
    var close := [CloseFd(t.tcp[sid].fd)];
    NoMuxData(close, sid);
    MuxDataCons(TcpCloseWr(sid), close, sid);
    MuxDataCons(TcpCloseWr(sid), [], sid);
  }

  lemma LoopFailed(t: Tables, sid: u16, input: seq<Read>, k: nat)
    requires sid in t.tcp && k < |input| && input[k].ReadFailed?
    ensures var r := ReadLoop(t, sid, input, k); MuxData(r.out, sid) == [] && EndsAs(t, sid, Some(input[k]), r.t)
  {
    var close := [CloseFd(t.tcp[sid].fd)];
    NoMuxData(close, sid);
    MuxDataCons(TcpRst(sid, RST_REASON_PEER_RESET), close, sid);
  }

  lemma LoopRefused(t: Tables, sid: u16, input: seq<Read>, k: nat)
    requires sid in t.tcp && k < |input| && input[k].Chunk? && !input[k].sent
    ensures var r := ReadLoop(t, sid, input, k);
            MuxData(r.out, sid) == input[k].data && EndsAs(t, sid, Some(input[k]), r.t)
  {
    var close, rst := [CloseFd(t.tcp[sid].fd)], TcpRst(sid, RST_REASON_OTHER);
    NoMuxData(close, sid);
    MuxDataCons(rst, close, sid);
    MuxDataCons(TcpData(sid, input[k].data), [ToMux(rst)] + close, sid);
    assert [ToMux(TcpData(sid, input[k].data)), ToMux(rst)] + close
        == [ToMux(TcpData(sid, input[k].data))] + ([ToMux(rst)] + close);
  }

  lemma LoopEnds(t: Tables, sid: u16, input: seq<Read>, k: nat)
    requires sid in t.tcp && k < |input| && !GoesOn(input[k])
    ensures var r := ReadLoop(t, sid, input, k);
            MuxData(r.out, sid) == BytesOf(Some(input[k])) && EndsAs(t, sid, Some(input[k]), r.t)
  {
    match input[k]
    case WouldBlock =>
    case Eof => LoopEof(t, sid, input, k);
    case ReadFailed => LoopFailed(t, sid, input, k);
    case Chunk(_, _) => LoopRefused(t, sid, input, k);
  }

  /** Everything read up to the answer that ends the loop goes to the mux, in order, a last chunk it
      refuses included; the stream ends as that answer demands. */
  lemma {:induction false} ReadLoopForwards(t: Tables, sid: u16, input: seq<Read>, k: nat)
    requires sid in t.tcp && k <= |input|
    ensures var r := ReadLoop(t, sid, input, k);
            MuxData(r.out, sid) == BytesRead(input[k..]) && EndsAs(t, sid, LastAnswer(input[k..]), r.t)
    decreases |input| - k
  {
    if k < |input| {
      if GoesOn(input[k]) {
        ReadLoopForwards(t, sid, input, k + 1);
        LoopGoesOn(t, sid, input, k);
        ReadOn(input[k..]);
        assert input[k..][1..] == input[k + 1..];
      } else {
        LoopEnds(t, sid, input, k);
        ReadLast(input[k..]);
      }
    }
  }
}
