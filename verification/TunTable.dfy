/** panctl/tun_tcp.c as a state machine: the slot table, what each packet, mux callback and sweep
    makes of it, and what it writes to the mux and to the tun device. */
module TunTable {
  import opened Bytes
  import opened Frame
  import opened MuxSpec
  import opened Ipv4
  import opened TunSegment

  const MAX_TCP_CONNS := 128
  const OUR_ISN_BASE: u32 := 0xC0FF_EE00
  const STREAM_ID_BASE: u16 := 0xE000
  const SYN_RCVD_MAX_AGE := 30
  const NO_ADDR: Addr := [0, 0, 0, 0]

  /** conn_reset */
  const RESET_CONN := Conn(Closed, 0, NO_ADDR, 0, NO_ADDR, 0, 0, 0, 0)

  /** A frame sent on the mux, or a segment for c written to the tun device. */
  datatype Out = ToMux(msg: Message) | ToTun(c: Conn, flags: byte, payload: seq<byte>)

  datatype Tun = Tun(conns: seq<Conn>, age: seq<u16>)

  datatype Result = Result(tun: Tun, out: seq<Out>)

  datatype Event =
    | Arrive(p: TcpPacket)
    | OnOpenAck(sid: u16, status: u16)
    | OnData(sid: u16, data: seq<byte>)
    | OnCloseWr(sid: u16)
    | OnRst(sid: u16)
    | Sweep

  const EMPTY := Tun(seq(MAX_TCP_CONNS, _ => RESET_CONN), seq(MAX_TCP_CONNS, _ => 0))

  // ----- lookups -----

  datatype Query =
    | ByTuple(srcIp: Addr, srcPort: u16, dstIp: Addr, dstPort: u16)
    | BySid(sid: u16)
    | Free

  predicate Matches(c: Conn, q: Query) {
    match q
    case ByTuple(_, _, _, _) => c.state != Closed && TupleOf(c) == q
    case BySid(sid) => c.state != Closed && c.streamId == sid
    case Free => c.state == Closed
  }

  function TupleOf(c: Conn): Query { ByTuple(c.srcIp, c.srcPort, c.dstIp, c.dstPort) }

  function TupleOfPacket(p: TcpPacket): Query { ByTuple(p.srcIp, p.srcPort, p.dstIp, p.dstPort) }

  /** The three linear scans: the first slot from i on that matches. */
  function Find(conns: seq<Conn>, q: Query, i: nat): (r: Option<nat>)
    ensures r.Some? ==> i <= r.value < |conns| && Matches(conns[r.value], q)
    ensures forall j | i <= j < (if r.Some? then r.value else |conns|) :: !Matches(conns[j], q)
    decreases |conns| - i
  {
    if i >= |conns| then None
    else if Matches(conns[i], q) then Some(i)
    else Find(conns, q, i + 1)
  }

  // ----- one slot -----

  function Isn(i: nat): u32 { Add32(OUR_ISN_BASE, i * 0x1_0000) }

  function NewConn(i: nat, p: TcpPacket): Conn {
    Conn(SynRcvd, Low16(STREAM_ID_BASE + i), p.srcIp, p.srcPort, p.dstIp, p.dstPort, Add32(p.seqNo, 1), Isn(i), 1)
  }

  /** The payload part of a packet without SYN or RST. */
  function TakePayload(c: Conn, p: TcpPacket): (Conn, seq<Out>) {
    var c := if c.state == SynRcvd && Has(p.flags, TCP_FLAG_ACK) then c.(state := Estab) else c;
    if p.payload == [] then (c, [])
    else
      var c' := c.(peerSeqNext := Add32(p.seqNo, |p.payload|));
      (Bump(c'), [ToMux(TcpData(c.streamId, p.payload)), ToTun(c', TCP_FLAG_ACK, [])])
  }

  /** Its FIN part. */
  function TakeFin(c: Conn, p: TcpPacket): (Conn, seq<Out>) {
    if !Has(p.flags, TCP_FLAG_FIN) then (c, [])
    else
      var c' := c.(peerSeqNext := Add32(p.seqNo, |p.payload| + 1));
      (if c.state == FinRemote then RESET_CONN else Bump(c').(state := FinLocal),
       [ToMux(TcpCloseWr(c.streamId)), ToTun(c', TCP_FLAG_ACK, [])])
  }

  /** tun_tcp_handle_packet on the slot of a packet without SYN. */
  function ConnArrive(c: Conn, p: TcpPacket): (Conn, seq<Out>) {
    if Has(p.flags, TCP_FLAG_RST) then (RESET_CONN, [ToMux(TcpRst(c.streamId, RST_REASON_PEER_RESET))])
    else
      var (c1, out1) := TakePayload(c, p);
      var (c2, out2) := TakeFin(c1, p);
      (c2, out1 + out2)
  }

  const RST_ACK: byte := TCP_FLAG_RST + TCP_FLAG_ACK
  const SYN_ACK: byte := TCP_FLAG_SYN + TCP_FLAG_ACK
  const PSH_ACK: byte := TCP_FLAG_PSH + TCP_FLAG_ACK
  const FIN_ACK: byte := TCP_FLAG_FIN + TCP_FLAG_ACK

  /** A segment that occupies n sequence numbers is written for c. */
  function Sent(c: Conn, n: nat): Conn { Bump(c).(ourSeqNext := Add32(c.ourSeqNext, n)) }

  function ConnOpenAck(c: Conn, status: u16): (Conn, seq<Out>) {
    if status != 0 then (RESET_CONN, [ToTun(c, RST_ACK, [])])
    else (Sent(c, 1), [ToTun(c, SYN_ACK, [])])
  }

  function Take(left: seq<byte>): nat { if |left| > OUR_MSS then OUR_MSS else |left| }

  /** The loop of tun_tcp_on_tcp_data. */
  function ConnData(c: Conn, left: seq<byte>): (Conn, seq<Out>)
    decreases |left|
  {
    if left == [] then (c, [])
    else
      var n := Take(left);
      var (c', out) := ConnData(Sent(c, n), left[n..]);
      (c', [ToTun(c, PSH_ACK, left[..n])] + out)
  }

  function ConnCloseWr(c: Conn): (Conn, seq<Out>) {
    (if c.state == FinLocal then RESET_CONN else Sent(c, 1).(state := FinRemote), [ToTun(c, FIN_ACK, [])])
  }

  function ConnRst(c: Conn): (Conn, seq<Out>) { (RESET_CONN, [ToTun(c, RST_ACK, [])]) }

  /** One slot of tun_tcp_sweep. */
  function ConnSweep(c: Conn, age: u16): (Conn, u16, seq<Out>) {
    if c.state != SynRcvd then (c, 0, [])
    else if Low16(age + 1) > SYN_RCVD_MAX_AGE then (RESET_CONN, 0, [ToMux(TcpRst(c.streamId, RST_REASON_OTHER))])
    else (c, Low16(age + 1), [])
  }

  // ----- the table -----

  predicate Sized(t: Tun) { |t.conns| == MAX_TCP_CONNS == |t.age| }

  /** The first n slots of tun_tcp_sweep. */
  function SweepTo(t: Tun, n: nat): (r: Result)
    requires Sized(t) && n <= MAX_TCP_CONNS
    ensures Sized(r.tun)
  {
    if n == 0 then Result(t, [])
    else
      var r := SweepTo(t, n - 1);
      var (c, a, out) := ConnSweep(r.tun.conns[n - 1], r.tun.age[n - 1]);
      Result(Tun(r.tun.conns[n - 1 := c], r.tun.age[n - 1 := a]), r.out + out)
  }

  function SweepAll(t: Tun): (r: Result)
    requires Sized(t)
    ensures Sized(r.tun)
  {
    SweepTo(t, |t.conns|)
  }

  /** The slot an event acts on: for a SYN of an unknown tuple, the one it will occupy. */
  function Who(t: Tun, e: Event): (i: Option<nat>)
    ensures i.Some? ==> i.value < |t.conns|
  {
    match e
    case Arrive(p) =>
      var known := Find(t.conns, TupleOfPacket(p), 0);
      if Has(p.flags, TCP_FLAG_SYN) then if known.Some? then None else Find(t.conns, Free, 0)
      else known
    case OnOpenAck(sid, _) => Find(t.conns, BySid(sid), 0)
    case OnData(sid, _) => Find(t.conns, BySid(sid), 0)
    case OnCloseWr(sid) => Find(t.conns, BySid(sid), 0)
    case OnRst(sid) => Find(t.conns, BySid(sid), 0)
    case Sweep => None
  }

  /** What an event other than a sweep makes of its slot. */
  function ConnStep(i: nat, c: Conn, e: Event): (Conn, seq<Out>)
    requires !e.Sweep?
  {
    match e
    case Arrive(p) =>
      if Has(p.flags, TCP_FLAG_SYN) then
        var c' := NewConn(i, p);
        (c', [ToMux(TcpOpen(c'.streamId, Endpoint(ADDR_TYPE_IPV4, p.dstPort, p.dstIp)))])
      else ConnArrive(c, p)
    case OnOpenAck(_, status) => ConnOpenAck(c, status)
    case OnData(_, data) => ConnData(c, data)
    case OnCloseWr(_) => ConnCloseWr(c)
    case OnRst(_) => ConnRst(c)
  }

  function Step(t: Tun, e: Event): (r: Result)
    requires Sized(t)
    ensures Sized(r.tun)
  {
    if e.Sweep? then SweepAll(t)
    else
      var i := Who(t, e);
      if i.None? then Result(t, [])
      else
        var (c, out) := ConnStep(i.value, t.conns[i.value], e);
        Result(t.(conns := t.conns[i.value := c]), out)
  }

  function Run(t: Tun, es: seq<Event>): (t': Tun)
    requires Sized(t)
    ensures Sized(t')
    decreases |es|
  {
    if es == [] then t else Run(Step(t, es[0]).tun, es[1..])
  }

  // ----- sweeps -----

  lemma {:induction false} SweepToIsPointwise(t: Tun, n: nat, j: nat)
    requires Sized(t) && n <= MAX_TCP_CONNS && j < MAX_TCP_CONNS
    ensures var r := SweepTo(t, n).tun;
            if j >= n then r.conns[j] == t.conns[j] && r.age[j] == t.age[j]
            else r.conns[j] == ConnSweep(t.conns[j], t.age[j]).0 && r.age[j] == ConnSweep(t.conns[j], t.age[j]).1
  {
    if n > 0 {
      SweepToIsPointwise(t, n - 1, j);
      SweepToIsPointwise(t, n - 1, n - 1);
    }
  }

  /** A sweep treats every slot alike and alone. */
  lemma SweepIsPointwise(t: Tun, j: nat)
    requires Sized(t) && j < MAX_TCP_CONNS
    ensures var r := SweepAll(t).tun;
            r.conns[j] == ConnSweep(t.conns[j], t.age[j]).0 && r.age[j] == ConnSweep(t.conns[j], t.age[j]).1
  {
    SweepToIsPointwise(t, |t.conns|, j);
  }

  function Sweeps(t: Tun, n: nat): (t': Tun)
    requires Sized(t)
    ensures Sized(t')
  {
    if n == 0 then t else SweepAll(Sweeps(t, n - 1)).tun
  }

  lemma SweepAges(t: Tun, i: nat)
    requires Sized(t) && i < MAX_TCP_CONNS && t.age[i] <= SYN_RCVD_MAX_AGE
    ensures var t' := SweepAll(t).tun;
            && t'.age[i] <= SYN_RCVD_MAX_AGE
            && (t'.conns[i].state == SynRcvd ==> t'.age[i] == t.age[i] + 1 && t.conns[i].state == SynRcvd)
  {
    SweepIsPointwise(t, i);
  }

  predicate AgedBy(t: Tun, t': Tun, i: nat, n: nat)
    requires Sized(t) && Sized(t') && i < MAX_TCP_CONNS
  {
    t'.age[i] <= SYN_RCVD_MAX_AGE && (t'.conns[i].state == SynRcvd ==> t'.age[i] == t.age[i] + n)
  }

  lemma {:induction false} SweepsAge(t: Tun, n: nat, i: nat)
    requires Sized(t) && i < MAX_TCP_CONNS && t.age[i] <= SYN_RCVD_MAX_AGE
    ensures AgedBy(t, Sweeps(t, n), i, n)
  {
    if n > 0 {
      var s := Sweeps(t, n - 1);
      SweepsAge(t, n - 1, i);
      SweepAges(s, i);
    }
  }

  /** 31 sweeps in a row leave no slot waiting for the mux, from any table whose ages are in range,
      as all reachable ones are. */
  lemma SweepsRecycle(t: Tun, i: nat)
    requires Sized(t) && i < MAX_TCP_CONNS && t.age[i] <= SYN_RCVD_MAX_AGE
    ensures Sweeps(t, SYN_RCVD_MAX_AGE + 1).conns[i].state != SynRcvd
  {
    SweepsAge(t, SYN_RCVD_MAX_AGE + 1, i);
  }

  // ----- isolation -----

  /** An event leaves every slot but its own, and all ages, as they were; a sweep leaves every slot
      not in SYN_RCVD. */
  lemma OtherSlotsUnchanged(t: Tun, e: Event, j: nat)
    requires Sized(t) && j < MAX_TCP_CONNS
    ensures !e.Sweep? ==> Step(t, e).tun.age == t.age
    ensures !e.Sweep? && Who(t, e) != Some(j) ==> Step(t, e).tun.conns[j] == t.conns[j]
    ensures e.Sweep? && t.conns[j].state != SynRcvd ==> Step(t, e).tun.conns[j] == t.conns[j]
  {
    if e.Sweep? {
      SweepIsPointwise(t, j);
    }
  }
}
