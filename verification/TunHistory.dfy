/** What every run of the TCP shim keeps, slot by slot: each tenancy's history, written from the
    events alone, against the slot's fields and the segments written for it. */
module TunHistory {
  import opened Bytes
  import opened Frame
  import opened MuxSpec
  import opened Ipv4
  import opened TunSegment
  import opened TunTable
  import InternetChecksum

  /** A segment by its flags and the number it acknowledges. */
  datatype Sketch = Sketch(flags: byte, ack: u32)

  /** One tenancy of a slot, from the SYN that opened it: its tuple, the SYN's sequence number and
      the slot's age then; how many OPEN_ACKs of status 0 and CLOSE_WRs it got, and the bytes of its
      mux data blocks; whether it got an ACK, how many FINs, and the payload bytes of its packets;
      whether each payload or FIN packet had the next expected sequence number; the sweeps it was
      seen waiting by; whether it was aborted, by the mux or otherwise, and the reason of the RST it owes
      the mux; the number
      it acknowledges, and the segments due, in order. What was written: its segments, the bytes of
      its TCP_DATA frames, and its other mux frames. */
  datatype Tenancy = Tenancy(
    started: bool, tuple: Query, synSeq: u32, age0: u16,
    openAcks: nat, closeWrs: nat, fromMux: seq<byte>,
    acked: bool, fins: nat, fromPeer: seq<byte>, inOrder: bool,
    sweeps: nat, aborted: bool, muxReset: bool, rst: Option<u16>, ackNo: u32, due: seq<Sketch>,
    segs: seq<Out>, forwarded: seq<byte>, control: seq<Message>)

  const NO_TENANCY :=
    Tenancy(false, Free, 0, 0, 0, 0, [], false, 0, [], true, 0, false, false, None, 0, [], [], [], [])

  datatype World = World(tun: Tun, ten: seq<Tenancy>)

  const START := World(EMPTY, seq(MAX_TCP_CONNS, _ => NO_TENANCY))

  // ----- history -----

  /** Sequence numbers used so far: one per SYN-ACK, one per FIN, one per data byte. */
  function Used(h: Tenancy): nat { h.openAcks + h.closeWrs + |h.fromMux| }

  /** The peer's next sequence number: past its SYN, its bytes and its FINs. */
  function Expected(h: Tenancy): u32 { Add32(h.synSeq, 1 + |h.fromPeer| + h.fins) }

  predicate Live(h: Tenancy) { h.started && !h.aborted && !(h.fins > 0 && h.closeWrs > 0) }

  /** The state the history calls for. */
  function StateOf(h: Tenancy): TcpState {
    if !Live(h) then Closed
    else if h.fins > 0 then FinLocal
    else if h.closeWrs > 0 then FinRemote
    else if h.acked then Estab
    else SynRcvd
  }

  function Opened(p: TcpPacket, age: u16): Tenancy {
    NO_TENANCY.(started := true, tuple := TupleOfPacket(p), synSeq := p.seqNo, age0 := age, ackNo := Add32(p.seqNo, 1))
  }

  /** The acknowledgements due for a packet: one past its payload, if it has any, and one past its FIN. */
  function AcksDue(p: TcpPacket): seq<Sketch> {
    PayloadAck(p) + FinAck(p)
  }

  function PayloadAck(p: TcpPacket): seq<Sketch> {
    if |p.payload| > 0 then [Sketch(0x10, Add32(p.seqNo, |p.payload|))] else []
  }

  function FinAck(p: TcpPacket): seq<Sketch> {
    if Has(p.flags, 0x01) then [Sketch(0x10, Add32(p.seqNo, |p.payload| + 1))] else []
  }

  /** The number of segments of at most 900 bytes that n bytes take. */
  function Pieces(n: nat): nat { (n + 899) / 900 }

  /** h with segments of the given flags due. */
  function Due(h: Tenancy, flags: byte, n: nat): Tenancy { h.(due := h.due + seq(n, _ => Sketch(flags, h.ackNo))) }

  /** The history after a packet without SYN, from the packet alone. */
  function SawPacket(h: Tenancy, p: TcpPacket): Tenancy {
    if Has(p.flags, TCP_FLAG_RST) then h.(aborted := true, rst := Some(RST_REASON_PEER_RESET))
    else
      var fin := Has(p.flags, TCP_FLAG_FIN);
      var acks := AcksDue(p);
      h.(ackNo := if acks == [] then h.ackNo else acks[|acks| - 1].ack, due := h.due + acks,
         acked := h.acked || Has(p.flags, TCP_FLAG_ACK),
         fins := if fin then h.fins + 1 else h.fins,
         fromPeer := h.fromPeer + p.payload,
         inOrder := h.inOrder && (p.payload != [] || fin ==> p.seqNo == Expected(h)))
  }

  function Saw(h: Tenancy, e: Event): Tenancy
    requires !e.Sweep?
  {
    match e
    case Arrive(p) => SawPacket(h, p)
    case OnOpenAck(_, status) =>
      if status != 0 then Due(h, 0x14, 1).(aborted := true, muxReset := true)
      else Due(h, 0x12, 1).(openAcks := h.openAcks + 1)
    case OnData(_, data) => Due(h, 0x18, Pieces(|data|)).(fromMux := h.fromMux + data)
    case OnCloseWr(_) => Due(h, 0x11, 1).(closeWrs := h.closeWrs + 1)
    case OnRst(_) => Due(h, 0x14, 1).(aborted := true, muxReset := true)
  }

  function SawSweep(h: Tenancy): Tenancy {
    if StateOf(h) != SynRcvd then h
    else if h.age0 + h.sweeps >= SYN_RCVD_MAX_AGE then h.(aborted := true, rst := Some(RST_REASON_OTHER))
    else h.(sweeps := h.sweeps + 1)
  }

  function Destination(tuple: Query): Endpoint {
    if tuple.ByTuple? then Endpoint(ADDR_TYPE_IPV4, tuple.dstPort, tuple.dstIp) else Endpoint(0, 0, [])
  }

  /** The mux frames the history calls for besides TCP_DATA: one OPEN to the tuple's destination, one
      CLOSE_WR per FIN, and an RST if the local end reset or never got an answer. */
  function ControlDue(i: nat, h: Tenancy): seq<Message> {
    if !h.started then []
    else [TcpOpen(Sid(i), Destination(h.tuple))] + seq(h.fins, _ => TcpCloseWr(Sid(i)))
         + if h.rst.Some? then [TcpRst(Sid(i), h.rst.value)] else []
  }

  predicate IsSyn(e: Event) { e.Arrive? && Has(e.p.flags, TCP_FLAG_SYN) }

  // ----- what was written -----

  function SegsOf(out: seq<Out>): seq<Out> {
    if out == [] then [] else (if out[0].ToTun? then [out[0]] else []) + SegsOf(out[1..])
  }

  /** The bytes of the TCP_DATA frames on stream sid. */
  function DataOf(out: seq<Out>, sid: u16): seq<byte> {
    if out == [] then []
    else (if out[0].ToMux? && out[0].msg.TcpData? && out[0].msg.sid == sid then out[0].msg.data else [])
         + DataOf(out[1..], sid)
  }

  /** The other mux frames on stream sid. */
  function ControlOf(out: seq<Out>, sid: u16): seq<Message> {
    if out == [] then []
    else (if out[0].ToMux? && !out[0].msg.TcpData? && StreamOf(out[0].msg) == sid then [out[0].msg] else [])
         + ControlOf(out[1..], sid)
  }

  function Payloads(segs: seq<Out>): seq<byte> {
    if segs == [] then [] else (if segs[0].ToTun? then segs[0].payload else []) + Payloads(segs[1..])
  }

  /** The sequence numbers a segment occupies (section 3.4 of RFC 9293). */
  function SegLen(s: Out): nat
    requires s.ToTun?
  {
    |s.payload| + (if Has(s.flags, TCP_FLAG_SYN) then 1 else 0) + (if Has(s.flags, TCP_FLAG_FIN) then 1 else 0)
  }

  /** Each segment starts where the one before it ended, from from to to. */
  ghost predicate Tiles(segs: seq<Out>, from: u32, to: u32) {
    if segs == [] then from == to
    else segs[0].ToTun? && segs[0].c.ourSeqNext == from && Tiles(segs[1..], Add32(from, SegLen(segs[0])), to)
  }

  /** The sequence numbers that segments occupy together. */
  function Span(segs: seq<Out>): nat {
    if segs == [] then 0 else (if segs[0].ToTun? then SegLen(segs[0]) else 0) + Span(segs[1..])
  }

  /** Every segment fits write_segment's 1072-byte buffer and tcp_checksum's scratch area, and is
      addressed for tuple. */
  ghost predicate Fits(segs: seq<Out>, tuple: Query) {
    forall k | 0 <= k < |segs| :: segs[k].ToTun? && |segs[k].payload| <= OUR_MSS && TupleOf(segs[k].c) == tuple
  }

  /** The segments are those due, in order: with their flags and acknowledgement numbers, payload on the
      PSH ones alone, and identification numbers counting up from id. */
  ghost predicate AsDue(segs: seq<Out>, due: seq<Sketch>, id: nat) {
    && |segs| == |due|
    && forall k | 0 <= k < |segs| :: segs[k].ToTun? && Drawn(segs[k], due[k]) && segs[k].c.ipId == Low16(id + k)
  }

  predicate Drawn(s: Out, d: Sketch)
    requires s.ToTun?
  {
    s.flags == d.flags && s.c.peerSeqNext == d.ack && (s.payload != [] <==> d.flags == 0x18)
  }

  lemma AsDueAppend(a: seq<Out>, da: seq<Sketch>, b: seq<Out>, db: seq<Sketch>, id: nat)
    requires AsDue(a, da, id) && AsDue(b, db, id + |a|)
    ensures AsDue(a + b, da + db, id)
  {
    forall k | |a| <= k < |a| + |b|
      ensures (a + b)[k].ToTun? && Drawn((a + b)[k], (da + db)[k]) && (a + b)[k].c.ipId == Low16(id + k)
    {
      assert (a + b)[k] == b[k - |a|] && (da + db)[k] == db[k - |a|];
    }
  }

  lemma {:induction false} SegsOfAppend(a: seq<Out>, b: seq<Out>)
    ensures SegsOf(a + b) == SegsOf(a) + SegsOf(b)
  {
    if a == [] {
      assert a + b == b;
    } else {
      assert (a + b)[0] == a[0] && (a + b)[1..] == a[1..] + b;
      SegsOfAppend(a[1..], b);
      var one := if a[0].ToTun? then [a[0]] else [];
      assert one + (SegsOf(a[1..]) + SegsOf(b)) == one + SegsOf(a[1..]) + SegsOf(b);
    }
  }

  lemma {:induction false} DataOfAppend(a: seq<Out>, b: seq<Out>, sid: u16)
    ensures DataOf(a + b, sid) == DataOf(a, sid) + DataOf(b, sid)
  {
    if a == [] {
      assert a + b == b;
    } else {
      assert (a + b)[0] == a[0] && (a + b)[1..] == a[1..] + b;
      DataOfAppend(a[1..], b, sid);
    }
  }

  lemma {:induction false} ControlOfAppend(a: seq<Out>, b: seq<Out>, sid: u16)
    ensures ControlOf(a + b, sid) == ControlOf(a, sid) + ControlOf(b, sid)
  {
    if a == [] {
      assert a + b == b;
    } else {
      assert (a + b)[1..] == a[1..] + b;
      ControlOfAppend(a[1..], b, sid);
    }
  }

  lemma {:induction false} PayloadsAppend(a: seq<Out>, b: seq<Out>)
    ensures Payloads(a + b) == Payloads(a) + Payloads(b)
  {
    if a == [] {
      assert a + b == b;
    } else {
      assert (a + b)[1..] == a[1..] + b;
      PayloadsAppend(a[1..], b);
    }
  }

  lemma {:induction false} SpanAppend(a: seq<Out>, b: seq<Out>)
    ensures Span(a + b) == Span(a) + Span(b)
  {
    if a == [] {
      assert a + b == b;
    } else {
      assert (a + b)[1..] == a[1..] + b;
      SpanAppend(a[1..], b);
    }
  }

  lemma {:induction false} TilesAppend(a: seq<Out>, b: seq<Out>, from: u32, mid: u32, to: u32)
    requires Tiles(a, from, mid) && Tiles(b, mid, to)
    ensures Tiles(a + b, from, to)
  {
    if a == [] {
      assert a + b == b;
    } else {
      assert (a + b)[1..] == a[1..] + b;
      TilesAppend(a[1..], b, Add32(from, SegLen(a[0])), mid, to);
    }
  }

  lemma Add32Twice(a: u32, m: nat, n: nat)
    ensures Add32(Add32(a, m), n) == Add32(a, m + n)
  {
  }

  // ----- steps of the world -----

  function Sid(i: nat): u16 { Low16(STREAM_ID_BASE + i) }

  /** The history after an event, what was written included. A sweep writes nothing to the tun
      device, so only a slot's own events extend its segments. */
  function Recorded(i: nat, h: Tenancy, h': Tenancy, out: seq<Out>): Tenancy {
    h'.(segs := h.segs + SegsOf(out), forwarded := h.forwarded + DataOf(out, Sid(i)),
        control := h.control + ControlOf(out, Sid(i)))
  }

  function StepWorld(w: World, e: Event): (w': World)
    requires Sized(w.tun) && |w.ten| == MAX_TCP_CONNS
    ensures Sized(w'.tun) && |w'.ten| == MAX_TCP_CONNS
  {
    var r := Step(w.tun, e);
    if e.Sweep? then
      World(r.tun, seq(MAX_TCP_CONNS,
                       i requires 0 <= i < MAX_TCP_CONNS => Recorded(i, w.ten[i], SawSweep(w.ten[i]), r.out)))
    else
      var i := Who(w.tun, e);
      if i.None? then World(r.tun, w.ten)
      else
        var h := if IsSyn(e) then Opened(e.p, w.tun.age[i.value]) else w.ten[i.value];
        World(r.tun, w.ten[i.value := Recorded(i.value, h, if IsSyn(e) then h else Saw(h, e), r.out)])
  }

  function RunWorld(w: World, es: seq<Event>): (w': World)
    requires Sized(w.tun) && |w.ten| == MAX_TCP_CONNS
    ensures Sized(w'.tun) && |w'.ten| == MAX_TCP_CONNS
    decreases |es|
  {
    if es == [] then w else RunWorld(StepWorld(w, es[0]), es[1..])
  }

  /** The history only watches. */
  lemma {:induction false} RunWorldIsRun(w: World, es: seq<Event>)
    requires Sized(w.tun) && |w.ten| == MAX_TCP_CONNS
    ensures RunWorld(w, es).tun == Run(w.tun, es)
    decreases |es|
  {
    if es != [] {
      RunWorldIsRun(StepWorld(w, es[0]), es[1..]);
    }
  }

  // ----- the invariant -----

  /** What was written in a tenancy, live or over: its segments tile the sequence space from the
      slot's ISN over exactly the numbers used, carry exactly the mux data, and its TCP_DATA frames
      carry exactly the packets' payloads, and its other mux frames are exactly those due. */
  ghost predicate WrittenInv(i: nat, h: Tenancy) {
    && Tiles(h.segs, Isn(i), Add32(Isn(i), Used(h)))
    && Span(h.segs) == Used(h)
    && AsDue(h.segs, h.due, 1)
    && Fits(h.segs, h.tuple)
    && Payloads(h.segs) == h.fromMux
    && h.forwarded == h.fromPeer
    && h.control == ControlDue(i, h)
  }

  /** The slot's own fields: its state is the history's, and while it is live its stream id, tuple and
      sequence numbers are. */
  ghost predicate FieldsInv(i: nat, c: Conn, age: u16, h: Tenancy) {
    && age <= SYN_RCVD_MAX_AGE
    && c.state == StateOf(h)
    && (Live(h) ==>
          && c.streamId == Sid(i) && TupleOf(c) == h.tuple && h.rst.None?
          && c.ourSeqNext == Add32(Isn(i), Used(h))
          && Numbered(c, h)
          && (h.inOrder ==> c.peerSeqNext == Expected(h)))
    && (StateOf(h) == SynRcvd ==> age == h.age0 + h.sweeps)
  }

  ghost predicate SlotInv(i: nat, c: Conn, age: u16, h: Tenancy) {
    WrittenInv(i, h) && FieldsInv(i, c, age, h)
  }

  ghost predicate Distinct(t: Tun) {
    forall i, j | 0 <= i < j < |t.conns| ::
      t.conns[i].state != Closed && t.conns[j].state != Closed ==> TupleOf(t.conns[i]) != TupleOf(t.conns[j])
  }

  ghost predicate Inv(w: World) {
    && Sized(w.tun) && |w.ten| == MAX_TCP_CONNS
    && Distinct(w.tun)
    && forall i | 0 <= i < MAX_TCP_CONNS :: SlotInv(i, w.tun.conns[i], w.tun.age[i], w.ten[i])
  }

  // ----- single-slot preservation -----

  lemma FitsAppend(a: seq<Out>, b: seq<Out>, tuple: Query)
    requires Fits(a, tuple) && Fits(b, tuple)
    ensures Fits(a + b, tuple)
  {
  }

  /** The segments are those due since h. */
  ghost predicate GrowsDue(h: Tenancy, h': Tenancy, segs: seq<Out>) {
    && |h.due| <= |h'.due| && h'.due[..|h.due|] == h.due && AsDue(segs, h'.due[|h.due|..], 1 + |h.due|)
  }

  lemma GrowsBy(h: Tenancy, h': Tenancy, segs: seq<Out>, due: seq<Sketch>)
    requires h'.due == h.due + due && AsDue(segs, due, 1 + |h.due|)
    ensures GrowsDue(h, h', segs)
  {
    assert h'.due[|h.due|..] == due;
  }

  /** The number a live slot acknowledges, and the identification number of its next packet. */
  predicate Numbered(c: Conn, h: Tenancy) { c.peerSeqNext == h.ackNo && c.ipId == Low16(1 + |h.due|) }

  lemma Low16Twice(a: nat, b: nat)
    ensures Low16(Low16(a) + b) == Low16(a + b)
  {
  }

  /** Output out is what takes the tenancy from h to h'. */
  ghost predicate Extends(i: nat, h: Tenancy, h': Tenancy, out: seq<Out>) {
    && h'.tuple == h.tuple
    && Tiles(SegsOf(out), Add32(Isn(i), Used(h)), Add32(Isn(i), Used(h')))
    && Used(h') == Used(h) + Span(SegsOf(out))
    && GrowsDue(h, h', SegsOf(out))
    && Fits(SegsOf(out), h.tuple)
    && h'.fromMux == h.fromMux + Payloads(SegsOf(out))
    && h'.fromPeer == h.fromPeer + DataOf(out, Sid(i))
    && ControlDue(i, h') == ControlDue(i, h) + ControlOf(out, Sid(i))
  }

  lemma DueGrows(written: seq<Out>, h: Tenancy, h': Tenancy, segs: seq<Out>)
    requires AsDue(written, h.due, 1) && GrowsDue(h, h', segs)
    ensures AsDue(written + segs, h'.due, 1)
  {
    AsDueAppend(written, h.due, segs, h'.due[|h.due|..], 1);
    assert h.due + h'.due[|h.due|..] == h'.due;
  }

  /** Such output goes on where the tenancy's ended. */
  lemma WrittenGrows(i: nat, h: Tenancy, h': Tenancy, out: seq<Out>)
    requires WrittenInv(i, h) && Extends(i, h, h', out)
    ensures WrittenInv(i, Recorded(i, h, h', out))
  {
    var segs := SegsOf(out);
    TilesAppend(h.segs, segs, Isn(i), Add32(Isn(i), Used(h)), Add32(Isn(i), Used(h')));
    FitsAppend(h.segs, segs, h.tuple);
    PayloadsAppend(h.segs, segs);
    SpanAppend(h.segs, segs);
    DueGrows(h.segs, h, h', segs);
  }

  /** The fields are about the history, not about what was recorded of it. */
  lemma FieldsRecorded(i: nat, c: Conn, age: u16, h: Tenancy, h': Tenancy, out: seq<Out>)
    requires FieldsInv(i, c, age, h')
    ensures FieldsInv(i, c, age, Recorded(i, h, h', out))
  {
  }

  lemma OneSegment(s: Out, sid: u16)
    requires s.ToTun?
    ensures SegsOf([s]) == [s] && DataOf([s], sid) == [] && ControlOf([s], sid) == [] && Payloads([s]) == s.payload
    ensures Span([s]) == SegLen(s)
    ensures Tiles([s], s.c.ourSeqNext, Add32(s.c.ourSeqNext, SegLen(s)))
  {
    assert [s][1..] == [];
  }

  lemma FrameAndSegment(m: Message, s: Out, sid: u16)
    requires s.ToTun?
    ensures SegsOf([ToMux(m), s]) == [s]
    ensures DataOf([ToMux(m), s], sid) == if m.TcpData? && m.sid == sid then m.data else []
    ensures ControlOf([ToMux(m), s], sid) == if !m.TcpData? && StreamOf(m) == sid then [m] else []
  {
    OneSegment(s, sid);
    assert [ToMux(m), s][1..] == [s];
  }

  lemma OnlyFrame(m: Message, sid: u16)
    requires !m.TcpData?
    ensures SegsOf([ToMux(m)]) == [] && DataOf([ToMux(m)], sid) == []
    ensures ControlOf([ToMux(m)], sid) == if StreamOf(m) == sid then [m] else []
  {
    assert [ToMux(m)][1..] == [];
  }

  /** Segments that occupy no sequence number and carry nothing. */
  ghost predicate Acks(out: seq<Out>, c: Conn) {
    && Tiles(SegsOf(out), c.ourSeqNext, c.ourSeqNext)
    && Fits(SegsOf(out), TupleOf(c))
    && Payloads(SegsOf(out)) == []
    && Span(SegsOf(out)) == 0
  }

  lemma AckOf(m: Message, c: Conn, s: Out, sid: u16)
    requires s.ToTun? && s.flags == TCP_FLAG_ACK && s.payload == []
    requires s.c.ourSeqNext == c.ourSeqNext && TupleOf(s.c) == TupleOf(c)
    ensures Acks([ToMux(m), s], c)
    ensures DataOf([ToMux(m), s], sid) == if m.TcpData? && m.sid == sid then m.data else []
    ensures ControlOf([ToMux(m), s], sid) == if !m.TcpData? && StreamOf(m) == sid then [m] else []
  {
    FrameAndSegment(m, s, sid);
    OneSegment(s, sid);
  }

  lemma AcksAppend(a: seq<Out>, b: seq<Out>, c: Conn)
    requires Acks(a, c) && Acks(b, c)
    ensures Acks(a + b, c)
  {
    SegsOfAppend(a, b);
    TilesAppend(SegsOf(a), SegsOf(b), c.ourSeqNext, c.ourSeqNext, c.ourSeqNext);
    PayloadsAppend(SegsOf(a), SegsOf(b));
    SpanAppend(SegsOf(a), SegsOf(b));
  }

  lemma PayloadOutput(c: Conn, p: TcpPacket)
    ensures var (c', out) := TunTable.TakePayload(c, p);
            && Acks(out, c) && DataOf(out, c.streamId) == p.payload && ControlOf(out, c.streamId) == []
            && c'.ourSeqNext == c.ourSeqNext && c'.streamId == c.streamId && TupleOf(c') == TupleOf(c)
            && c'.peerSeqNext == (if p.payload == [] then c.peerSeqNext else Add32(p.seqNo, |p.payload|))
            && c'.state == (if c.state == SynRcvd && Has(p.flags, TCP_FLAG_ACK) then Estab else c.state)
  {
    var (c', out) := TunTable.TakePayload(c, p);
    if p.payload != [] {
      AckOf(TcpData(c.streamId, p.payload), c, out[1], c.streamId);
    }
  }

  lemma FinOutput(c: Conn, p: TcpPacket)
    ensures var (c', out) := TakeFin(c, p);
            && Acks(out, c) && DataOf(out, c.streamId) == []
            && ControlOf(out, c.streamId) == if Has(p.flags, TCP_FLAG_FIN) then [TcpCloseWr(c.streamId)] else []
  {
    var (c', out) := TakeFin(c, p);
    if Has(p.flags, TCP_FLAG_FIN) {
      AckOf(TcpCloseWr(c.streamId), c, out[1], c.streamId);
    }
  }

  /** The mux frames besides TCP_DATA that a packet without SYN gives rise to. */
  function ArriveControl(sid: u16, p: TcpPacket): seq<Message> {
    if Has(p.flags, TCP_FLAG_RST) then [TcpRst(sid, RST_REASON_PEER_RESET)]
    else if Has(p.flags, TCP_FLAG_FIN) then [TcpCloseWr(sid)]
    else []
  }

  lemma ControlDueGrows(i: nat, h: Tenancy, p: TcpPacket)
    requires Live(h) && h.rst.None?
    ensures ControlDue(i, SawPacket(h, p)) == ControlDue(i, h) + ArriveControl(Sid(i), p)
  {
    if !Has(p.flags, TCP_FLAG_RST) && Has(p.flags, TCP_FLAG_FIN) {
      assert seq(h.fins + 1, _ => TcpCloseWr(Sid(i))) == seq(h.fins, _ => TcpCloseWr(Sid(i))) + [TcpCloseWr(Sid(i))];
    }
  }

  lemma ArriveOutput(c: Conn, p: TcpPacket)
    ensures var out := ConnArrive(c, p).1;
            && Acks(out, c)
            && DataOf(out, c.streamId) == (if Has(p.flags, TCP_FLAG_RST) then [] else p.payload)
            && ControlOf(out, c.streamId) == ArriveControl(c.streamId, p)
  {
    if Has(p.flags, TCP_FLAG_RST) {
      OnlyFrame(TcpRst(c.streamId, RST_REASON_PEER_RESET), c.streamId);
    } else {
      var (c1, out1) := TunTable.TakePayload(c, p);
      var (c2, out2) := TakeFin(c1, p);
      PayloadOutput(c, p);
      FinOutput(c1, p);
      AcksAppend(out1, out2, c);
      DataOfAppend(out1, out2, c.streamId);
      ControlOfAppend(out1, out2, c.streamId);
    }
  }

  /** The slot's fields after a packet, with the state its history calls for. */
  lemma ArriveFields(c: Conn, p: TcpPacket, h: Tenancy)
    requires Live(h) && c.state == StateOf(h)
    ensures var c' := ConnArrive(c, p).0;
            var h' := SawPacket(h, p);
            && c'.state == StateOf(h')
            && (Live(h') ==> h'.rst == h.rst && c'.streamId == c.streamId &&
                             TupleOf(c') == TupleOf(c) && c'.ourSeqNext == c.ourSeqNext)
            && (Live(h') && c.peerSeqNext == Expected(h) && h'.inOrder ==> c'.peerSeqNext == Expected(h'))
            && (StateOf(h') == SynRcvd ==> StateOf(h) == SynRcvd)
  {
    PayloadOutput(c, p);
    if !Has(p.flags, TCP_FLAG_RST) {
      Add32Twice(h.synSeq, 1 + |h.fromPeer| + h.fins, |p.payload|);
      Add32Twice(h.synSeq, 1 + |h.fromPeer| + h.fins, |p.payload| + 1);
    }
  }

  lemma OneDue(s: Out, d: Sketch, id: nat)
    requires s.ToTun? && Drawn(s, d) && s.c.ipId == Low16(id)
    ensures AsDue([s], [d], id)
  {
  }

  lemma NoneDue(h: Tenancy, h': Tenancy)
    requires h'.due == h.due
    ensures GrowsDue(h, h', [])
  {
    assert h.due + [] == h.due;
    GrowsBy(h, h', [], []);
  }

  /** What one acknowledging segment has to be. */
  predicate AckSegment(s: Out, c: Conn, ack: u32) {
    s.ToTun? && s.flags == 0x10 && s.payload == [] && s.c.peerSeqNext == ack && s.c.ipId == c.ipId
  }

  lemma AckDue(s: Out, c: Conn, ack: u32, id: nat)
    requires AckSegment(s, c, ack) && c.ipId == Low16(id)
    ensures AsDue([s], [Sketch(0x10, ack)], id)
  {
    OneDue(s, Sketch(0x10, ack), id);
  }

  lemma PayloadWrites(c: Conn, p: TcpPacket)
    requires p.payload != []
    ensures var (c', out) := TunTable.TakePayload(c, p);
            && |out| == 2 && out[0].ToMux? && AckSegment(out[1], c, Add32(p.seqNo, |p.payload|))
            && SegsOf(out) == [out[1]]
            && c'.ipId == Low16(c.ipId + 1)
  {
    FrameAndSegment(TcpData(c.streamId, p.payload), TunTable.TakePayload(c, p).1[1], 0);
  }

  lemma PayloadDue(c: Conn, p: TcpPacket, id: nat)
    requires c.ipId == Low16(id)
    ensures var (c', out) := TunTable.TakePayload(c, p);
            AsDue(SegsOf(out), PayloadAck(p), id) && c'.ipId == Low16(id + |PayloadAck(p)|)
  {
    if p.payload != [] {
      PayloadWrites(c, p);
      AckDue(TunTable.TakePayload(c, p).1[1], c, Add32(p.seqNo, |p.payload|), id);
      Low16Twice(id, 1);
    }
  }

  /** The slot after acknowledgements were written for it. */
  predicate Acked(c: Conn, acks: seq<Sketch>, id: nat, c': Conn) {
    c'.ipId == Low16(id + |acks|) && c'.peerSeqNext == if acks == [] then c.peerSeqNext else acks[|acks| - 1].ack
  }

  lemma FinWrites(c: Conn, p: TcpPacket)
    requires Has(p.flags, TCP_FLAG_FIN)
    ensures var (c', out) := TakeFin(c, p);
            var ack := Add32(p.seqNo, |p.payload| + 1);
            && |out| == 2 && out[0].ToMux? && AckSegment(out[1], c, ack) && SegsOf(out) == [out[1]]
            && (c'.state != Closed ==> c'.ipId == Low16(c.ipId + 1) && c'.peerSeqNext == ack)
  {
    FrameAndSegment(TcpCloseWr(c.streamId), TakeFin(c, p).1[1], 0);
  }

  lemma FinDue(c: Conn, p: TcpPacket, id: nat)
    requires c.ipId == Low16(id)
    ensures var (c', out) := TakeFin(c, p);
            AsDue(SegsOf(out), FinAck(p), id) && (c'.state != Closed ==> Acked(c, FinAck(p), id, c'))
  {
    if Has(p.flags, TCP_FLAG_FIN) {
      FinWrites(c, p);
      AckDue(TakeFin(c, p).1[1], c, Add32(p.seqNo, |p.payload| + 1), id);
      Low16Twice(id, 1);
    }
  }

  lemma AcksWritten(c: Conn, p: TcpPacket, id: nat)
    requires c.ipId == Low16(id) && !Has(p.flags, TCP_FLAG_RST)
    ensures AsDue(SegsOf(ConnArrive(c, p).1), AcksDue(p), id)
  {
    var (c1, out1) := TunTable.TakePayload(c, p);
    var out2 := TakeFin(c1, p).1;
    PayloadDue(c, p, id);
    FinDue(c1, p, id + |PayloadAck(p)|);
    SegsOfAppend(out1, out2);
    AsDueAppend(SegsOf(out1), PayloadAck(p), SegsOf(out2), FinAck(p), id);
  }

  lemma SlotAcked(c: Conn, p: TcpPacket, id: nat)
    requires c.ipId == Low16(id) && !Has(p.flags, TCP_FLAG_RST)
    ensures var c' := ConnArrive(c, p).0; c'.state != Closed ==> Acked(c, AcksDue(p), id, c')
  {
    var c1 := TunTable.TakePayload(c, p).0;
    PayloadDue(c, p, id);
    PayloadOutput(c, p);
    FinDue(c1, p, id + |PayloadAck(p)|);
  }

  lemma SawAcks(h: Tenancy, p: TcpPacket)
    requires !Has(p.flags, TCP_FLAG_RST)
    ensures var h' := SawPacket(h, p);
            && h'.due == h.due + AcksDue(p)
            && h'.ackNo == if AcksDue(p) == [] then h.ackNo else AcksDue(p)[|AcksDue(p)| - 1].ack
  {
  }

  /** The acknowledgements written for a packet are those due, and the slot goes on from them. */
  lemma ArriveDue(c: Conn, p: TcpPacket, h: Tenancy)
    requires Numbered(c, h)
    ensures var (c', out) := ConnArrive(c, p);
            GrowsDue(h, SawPacket(h, p), SegsOf(out)) && (c'.state != Closed ==> Numbered(c', SawPacket(h, p)))
  {
    var out := ConnArrive(c, p).1;
    if Has(p.flags, TCP_FLAG_RST) {
      OnlyFrame(TcpRst(c.streamId, RST_REASON_PEER_RESET), 0);
      NoneDue(h, SawPacket(h, p));
    } else {
      SawAcks(h, p);
      AcksWritten(c, p, 1 + |h.due|);
      SlotAcked(c, p, 1 + |h.due|);
      GrowsBy(h, SawPacket(h, p), SegsOf(out), AcksDue(p));
    }
  }

  lemma ArriveExtends(i: nat, c: Conn, age: u16, h: Tenancy, p: TcpPacket)
    requires FieldsInv(i, c, age, h) && Live(h)
    ensures Extends(i, h, SawPacket(h, p), ConnArrive(c, p).1)
  {
    ArriveOutput(c, p);
    ControlDueGrows(i, h, p);
    ArriveDue(c, p, h);
    assert h.fromPeer + [] == h.fromPeer;
    AcksExtend(i, c, h, SawPacket(h, p), ConnArrive(c, p).1);
  }

  lemma AcksExtend(i: nat, c: Conn, h: Tenancy, h': Tenancy, out: seq<Out>)
    requires Acks(out, c) && TupleOf(c) == h.tuple && c.ourSeqNext == Add32(Isn(i), Used(h))
    requires h'.tuple == h.tuple && Used(h') == Used(h) && h'.fromMux == h.fromMux
    requires h'.fromPeer == h.fromPeer + DataOf(out, Sid(i))
    requires ControlDue(i, h') == ControlDue(i, h) + ControlOf(out, Sid(i)) && GrowsDue(h, h', SegsOf(out))
    ensures Extends(i, h, h', out)
  {
    assert h.fromMux + [] == h.fromMux;
  }

  lemma SlotArrive(i: nat, c: Conn, age: u16, h: Tenancy, p: TcpPacket)
    requires SlotInv(i, c, age, h) && Live(h)
    ensures var (c', out) := ConnArrive(c, p);
            SlotInv(i, c', age, Recorded(i, h, SawPacket(h, p), out))
  {
    var (c', out) := ConnArrive(c, p);
    ArriveExtends(i, c, age, h, p);
    WrittenGrows(i, h, SawPacket(h, p), out);
    ArriveFieldsInv(i, c, age, h, p);
    FieldsRecorded(i, c', age, h, SawPacket(h, p), out);
  }

  lemma ArriveFieldsInv(i: nat, c: Conn, age: u16, h: Tenancy, p: TcpPacket)
    requires FieldsInv(i, c, age, h) && Live(h)
    ensures FieldsInv(i, ConnArrive(c, p).0, age, SawPacket(h, p))
  {
    ArriveFields(c, p, h);
    ArriveDue(c, p, h);
  }

  /** Callbacks that write one segment. */
  lemma SegmentExtends(i: nat, c: Conn, h: Tenancy, h': Tenancy, flags: byte)
    requires TupleOf(c) == h.tuple && c.ourSeqNext == Add32(Isn(i), Used(h))
    requires h'.tuple == h.tuple && h'.fromMux == h.fromMux && h'.fromPeer == h.fromPeer
    requires h'.started == h.started && h'.fins == h.fins && h'.rst == h.rst
    requires Used(h') == Used(h) + SegLen(ToTun(c, flags, []))
    requires Numbered(c, h) && flags != 0x18 && h'.due == h.due + seq(1, _ => Sketch(flags, h.ackNo))
    ensures Extends(i, h, h', [ToTun(c, flags, [])])
  {
    var s := ToTun(c, flags, []);
    OneSegment(s, Sid(i));
    GrowsBy(h, h', [s], seq(1, _ => Sketch(flags, h.ackNo)));
    Add32Twice(Isn(i), Used(h), SegLen(s));
    assert h.fromMux + [] == h.fromMux && h.fromPeer + [] == h.fromPeer && ControlDue(i, h) + [] == ControlDue(i, h);
  }

  lemma SlotOpenAck(i: nat, c: Conn, age: u16, h: Tenancy, status: u16)
    requires SlotInv(i, c, age, h) && Live(h)
    ensures var (c', out) := ConnOpenAck(c, status);
            SlotInv(i, c', age, Recorded(i, h, Saw(h, OnOpenAck(0, status)), out))
  {
    var h' := Saw(h, OnOpenAck(0, status));
    SegmentExtends(i, c, h, h', if status != 0 then RST_ACK else SYN_ACK);
    WrittenGrows(i, h, h', ConnOpenAck(c, status).1);
    OpenAckFields(i, c, age, h, status);
    FieldsRecorded(i, ConnOpenAck(c, status).0, age, h, h', ConnOpenAck(c, status).1);
  }

  lemma OpenAckFields(i: nat, c: Conn, age: u16, h: Tenancy, status: u16)
    requires FieldsInv(i, c, age, h) && Live(h)
    ensures FieldsInv(i, ConnOpenAck(c, status).0, age, Saw(h, OnOpenAck(0, status)))
  {
    Add32Twice(Isn(i), Used(h), 1);
    Low16Twice(1 + |h.due|, 1);
  }

  lemma SlotCloseWr(i: nat, c: Conn, age: u16, h: Tenancy)
    requires SlotInv(i, c, age, h) && Live(h)
    ensures var (c', out) := ConnCloseWr(c);
            SlotInv(i, c', age, Recorded(i, h, Saw(h, OnCloseWr(0)), out))
  {
    var h' := Saw(h, OnCloseWr(0));
    SegmentExtends(i, c, h, h', FIN_ACK);
    WrittenGrows(i, h, h', ConnCloseWr(c).1);
    CloseWrFields(i, c, age, h);
    FieldsRecorded(i, ConnCloseWr(c).0, age, h, h', ConnCloseWr(c).1);
  }

  lemma CloseWrFields(i: nat, c: Conn, age: u16, h: Tenancy)
    requires FieldsInv(i, c, age, h) && Live(h)
    ensures FieldsInv(i, ConnCloseWr(c).0, age, Saw(h, OnCloseWr(0)))
  {
    Add32Twice(Isn(i), Used(h), 1);
    Low16Twice(1 + |h.due|, 1);
  }

  lemma SlotRst(i: nat, c: Conn, age: u16, h: Tenancy)
    requires SlotInv(i, c, age, h) && Live(h)
    ensures var (c', out) := ConnRst(c);
            SlotInv(i, c', age, Recorded(i, h, Saw(h, OnRst(0)), out))
  {
    SegmentExtends(i, c, h, Saw(h, OnRst(0)), RST_ACK);
    WrittenGrows(i, h, Saw(h, OnRst(0)), ConnRst(c).1);
  }

  lemma {:induction false} DataConn(c: Conn, left: seq<byte>)
    ensures var c' := ConnData(c, left).0;
            c' == c.(ourSeqNext := Add32(c.ourSeqNext, |left|), ipId := c'.ipId)
    decreases |left|
  {
    if left != [] {
      var n := Take(left);
      DataConn(Sent(c, n), left[n..]);
      Add32Twice(c.ourSeqNext, n, |left| - n);
    }
  }

  lemma {:induction false} DataShape(c: Conn, left: seq<byte>, sid: u16)
    ensures var out := ConnData(c, left).1;
            SegsOf(out) == out && DataOf(out, sid) == [] && ControlOf(out, sid) == []
    decreases |left|
  {
    if left != [] {
      var n := Take(left);
      var s := ToTun(c, PSH_ACK, left[..n]);
      var out := ConnData(Sent(c, n), left[n..]).1;
      DataShape(Sent(c, n), left[n..], sid);
      OneSegment(s, sid);
      SegsOfAppend([s], out);
      DataOfAppend([s], out, sid);
      ControlOfAppend([s], out, sid);
    }
  }

  lemma {:induction false} DataPieces(c: Conn, left: seq<byte>)
    ensures Payloads(ConnData(c, left).1) == left && Fits(ConnData(c, left).1, TupleOf(c))
    decreases |left|
  {
    if left != [] {
      var n := Take(left);
      var s := ToTun(c, PSH_ACK, left[..n]);
      var out := ConnData(Sent(c, n), left[n..]).1;
      DataPieces(Sent(c, n), left[n..]);
      OneSegment(s, 0);
      PayloadsAppend([s], out);
      FitsAppend([s], out, TupleOf(c));
      assert left[..n] + left[n..] == left;
    }
  }

  lemma {:induction false} DataSpan(c: Conn, left: seq<byte>)
    ensures Span(ConnData(c, left).1) == |left|
    decreases |left|
  {
    if left != [] {
      var n := Take(left);
      var s := ToTun(c, PSH_ACK, left[..n]);
      DataSpan(Sent(c, n), left[n..]);
      OneSegment(s, 0);
      SpanAppend([s], ConnData(Sent(c, n), left[n..]).1);
    }
  }

  lemma {:induction false} DataTiles(c: Conn, left: seq<byte>)
    ensures Tiles(ConnData(c, left).1, c.ourSeqNext, Add32(c.ourSeqNext, |left|))
    decreases |left|
  {
    if left != [] {
      var n := Take(left);
      var s := ToTun(c, PSH_ACK, left[..n]);
      var out := ConnData(Sent(c, n), left[n..]).1;
      DataTiles(Sent(c, n), left[n..]);
      OneSegment(s, 0);
      Add32Twice(c.ourSeqNext, n, |left| - n);
      TilesAppend([s], out, c.ourSeqNext, Add32(c.ourSeqNext, n), Add32(c.ourSeqNext, |left|));
    }
  }

  /** A data block is cut into pieces of at most 900 bytes whose concatenation is the block, tiling
      the sequence numbers from the slot's next one on. */
  lemma DataOutput(c: Conn, left: seq<byte>, sid: u16)
    ensures var (c', out) := ConnData(c, left);
            && SegsOf(out) == out && DataOf(out, sid) == [] && ControlOf(out, sid) == []
            && Payloads(out) == left && Span(out) == |left|
            && Tiles(out, c.ourSeqNext, Add32(c.ourSeqNext, |left|))
            && Fits(out, TupleOf(c))
            && c' == c.(ourSeqNext := Add32(c.ourSeqNext, |left|), ipId := c'.ipId)
  {
    DataConn(c, left);
    DataShape(c, left, sid);
    DataPieces(c, left);
    DataSpan(c, left);
    DataTiles(c, left);
  }

  lemma PiecesStep(n: nat)
    requires n > 0
    ensures Pieces(n) == 1 + Pieces(n - if n > OUR_MSS then OUR_MSS else n)
  {
  }

  lemma {:induction false} DataDue(c: Conn, left: seq<byte>, id: nat)
    requires c.ipId == Low16(id)
    ensures var (c', out) := ConnData(c, left);
            && AsDue(out, seq(Pieces(|left|), _ => Sketch(0x18, c.peerSeqNext)), id)
            && c'.ipId == Low16(id + Pieces(|left|))
    decreases |left|
  {
    if left != [] {
      var n := Take(left);
      var s := ToTun(c, PSH_ACK, left[..n]);
      var d := Sketch(0x18, c.peerSeqNext);
      Low16Twice(id, 1);
      PiecesStep(|left|);
      DataDue(Sent(c, n), left[n..], id + 1);
      AsDueAppend([s], [d], ConnData(Sent(c, n), left[n..]).1, seq(Pieces(|left| - n), _ => d), id);
      assert [d] + seq(Pieces(|left| - n), _ => d) == seq(Pieces(|left|), _ => d);
    }
  }

  lemma DataExtends(i: nat, c: Conn, h: Tenancy, data: seq<byte>)
    requires TupleOf(c) == h.tuple && c.ourSeqNext == Add32(Isn(i), Used(h)) && Numbered(c, h)
    ensures Extends(i, h, Saw(h, OnData(0, data)), ConnData(c, data).1)
  {
    DataOutput(c, data, Sid(i));
    DataDue(c, data, 1 + |h.due|);
    GrowsBy(h, Saw(h, OnData(0, data)), ConnData(c, data).1, seq(Pieces(|data|), _ => Sketch(0x18, h.ackNo)));
    Add32Twice(Isn(i), Used(h), |data|);
    assert h.fromPeer + [] == h.fromPeer && ControlDue(i, h) + [] == ControlDue(i, h);
  }

  lemma SlotData(i: nat, c: Conn, age: u16, h: Tenancy, data: seq<byte>)
    requires SlotInv(i, c, age, h) && Live(h)
    ensures var (c', out) := ConnData(c, data);
            SlotInv(i, c', age, Recorded(i, h, Saw(h, OnData(0, data)), out))
  {
    DataExtends(i, c, h, data);
    WrittenGrows(i, h, Saw(h, OnData(0, data)), ConnData(c, data).1);
    DataFields(i, c, age, h, data);
    FieldsRecorded(i, ConnData(c, data).0, age, h, Saw(h, OnData(0, data)), ConnData(c, data).1);
  }

  lemma DataFields(i: nat, c: Conn, age: u16, h: Tenancy, data: seq<byte>)
    requires FieldsInv(i, c, age, h) && Live(h)
    ensures FieldsInv(i, ConnData(c, data).0, age, Saw(h, OnData(0, data)))
  {
    DataOutput(c, data, Sid(i));
    DataDue(c, data, 1 + |h.due|);
    Add32Twice(Isn(i), Used(h), |data|);
  }

  lemma SlotOpen(i: nat, age: u16, p: TcpPacket)
    requires age <= SYN_RCVD_MAX_AGE
    ensures var out := [ToMux(TcpOpen(Sid(i), Endpoint(ADDR_TYPE_IPV4, p.dstPort, p.dstIp)))];
            SlotInv(i, NewConn(i, p), age, Recorded(i, Opened(p, age), Opened(p, age), out))
  {
    OnlyFrame(TcpOpen(Sid(i), Endpoint(ADDR_TYPE_IPV4, p.dstPort, p.dstIp)), Sid(i));
  }

  lemma SweepExtends(i: nat, c: Conn, age: u16, h: Tenancy)
    requires FieldsInv(i, c, age, h)
    ensures Extends(i, h, SawSweep(h), ConnSweep(c, age).2)
  {
    if ConnSweep(c, age).2 != [] {
      OnlyFrame(TcpRst(Sid(i), RST_REASON_OTHER), Sid(i));
    }
    NoneDue(h, SawSweep(h));
    assert h.fromPeer + [] == h.fromPeer && h.fromMux + [] == h.fromMux && ControlDue(i, h) + [] == ControlDue(i, h);
  }

  lemma SlotSweep(i: nat, c: Conn, age: u16, h: Tenancy)
    requires SlotInv(i, c, age, h)
    ensures var (c', a, out) := ConnSweep(c, age);
            SlotInv(i, c', a, Recorded(i, h, SawSweep(h), out))
  {
    var (c', a, out) := ConnSweep(c, age);
    SweepExtends(i, c, age, h);
    WrittenGrows(i, h, SawSweep(h), out);
    SweepFields(i, c, age, h);
    FieldsRecorded(i, c', a, h, SawSweep(h), out);
  }

  lemma SweepFields(i: nat, c: Conn, age: u16, h: Tenancy)
    requires FieldsInv(i, c, age, h)
    ensures FieldsInv(i, ConnSweep(c, age).0, ConnSweep(c, age).1, SawSweep(h))
  {
  }

  lemma SidValue(k: nat)
    requires k < MAX_TCP_CONNS
    ensures Sid(k) == STREAM_ID_BASE + k
  {
  }

  /** Every slot in use has its own stream id. */
  ghost predicate SidsInPlace(conns: seq<Conn>) {
    forall k | 0 <= k < |conns| :: conns[k].state != Closed ==> conns[k].streamId == Sid(k)
  }

  lemma InvSids(w: World)
    requires Inv(w)
    ensures SidsInPlace(w.tun.conns)
  {
    forall k | 0 <= k < MAX_TCP_CONNS && w.tun.conns[k].state != Closed ensures w.tun.conns[k].streamId == Sid(k) {
      assert SlotInv(k, w.tun.conns[k], w.tun.age[k], w.ten[k]);
    }
  }

  function SweepControl(t: Tun, i: nat): seq<Message>
    requires Sized(t) && i < MAX_TCP_CONNS
  {
    ControlOf(ConnSweep(t.conns[i], t.age[i]).2, Sid(i))
  }

  /** What the first n slots of a sweep write, each on its own. */
  function SweepOuts(t: Tun, n: nat): seq<Out>
    requires Sized(t) && n <= MAX_TCP_CONNS
  {
    if n == 0 then [] else SweepOuts(t, n - 1) + ConnSweep(t.conns[n - 1], t.age[n - 1]).2
  }

  lemma {:induction false} SweepWrites(t: Tun, n: nat)
    requires Sized(t) && n <= MAX_TCP_CONNS
    ensures SweepTo(t, n).out == SweepOuts(t, n)
  {
    if n > 0 {
      SweepWrites(t, n - 1);
      SweepToIsPointwise(t, n - 1, n - 1);
    }
  }

  lemma {:induction false} SweepWritesNoSegment(t: Tun, n: nat, sid: u16)
    requires Sized(t) && n <= MAX_TCP_CONNS
    ensures SegsOf(SweepOuts(t, n)) == [] && DataOf(SweepOuts(t, n), sid) == []
  {
    if n > 0 {
      var own := ConnSweep(t.conns[n - 1], t.age[n - 1]).2;
      SweepWritesNoSegment(t, n - 1, sid);
      SegsOfAppend(SweepOuts(t, n - 1), own);
      DataOfAppend(SweepOuts(t, n - 1), own, sid);
      SweptSlotWritesNone(t.conns[n - 1], t.age[n - 1], sid);
    }
  }

  lemma SweptSlotWritesNone(c: Conn, age: u16, sid: u16)
    ensures SegsOf(ConnSweep(c, age).2) == [] && DataOf(ConnSweep(c, age).2, sid) == []
  {
    if ConnSweep(c, age).2 != [] {
      OnlyFrame(TcpRst(c.streamId, RST_REASON_OTHER), sid);
    }
  }

  /** What a sweep writes on slot i's stream is what it writes at slot i. */
  lemma {:induction false} SweepOutput(t: Tun, n: nat, i: nat)
    requires Sized(t) && SidsInPlace(t.conns) && n <= MAX_TCP_CONNS && i < MAX_TCP_CONNS
    ensures ControlOf(SweepOuts(t, n), Sid(i)) == if i < n then SweepControl(t, i) else []
  {
    if n > 0 {
      var k := n - 1;
      SweepOutput(t, k, i);
      ControlOfAppend(SweepOuts(t, k), ConnSweep(t.conns[k], t.age[k]).2, Sid(i));
      if i != k {
        SweepSlotOutput(t.conns[k], t.age[k], k, i);
      }
    }
  }

  lemma SweepSlotOutput(c: Conn, age: u16, k: nat, i: nat)
    requires k < MAX_TCP_CONNS && i < MAX_TCP_CONNS && (c.state != Closed ==> c.streamId == Sid(k)) && k != i
    ensures ControlOf(ConnSweep(c, age).2, Sid(i)) == []
  {
    SidValue(i);
    SidValue(k);
    if ConnSweep(c, age).2 != [] {
      OnlyFrame(TcpRst(Sid(k), RST_REASON_OTHER), Sid(i));
    }
  }

  /** What a sweep adds to slot i's history is what it writes at slot i. */
  lemma SweepRecorded(t: Tun, i: nat, h: Tenancy, h': Tenancy)
    requires Sized(t) && SidsInPlace(t.conns) && i < MAX_TCP_CONNS
    ensures Recorded(i, h, h', SweepAll(t).out) == Recorded(i, h, h', ConnSweep(t.conns[i], t.age[i]).2)
  {
    var n := |t.conns|;
    SweepWrites(t, n);
    SweepWritesNoSegment(t, n, Sid(i));
    SweepOutput(t, n, i);
    if ConnSweep(t.conns[i], t.age[i]).2 != [] {
      OnlyFrame(TcpRst(t.conns[i].streamId, RST_REASON_OTHER), Sid(i));
    }
  }

  // ----- the theorem -----

  lemma SlotStep(i: nat, c: Conn, age: u16, h: Tenancy, e: Event)
    requires SlotInv(i, c, age, h) && Live(h) && !e.Sweep? && !IsSyn(e)
    ensures var (c', out) := ConnStep(i, c, e);
            SlotInv(i, c', age, Recorded(i, h, Saw(h, e), out))
  {
    match e
    case Arrive(p) => SlotArrive(i, c, age, h, p);
    case OnOpenAck(_, status) => SlotOpenAck(i, c, age, h, status);
    case OnData(_, data) => SlotData(i, c, age, h, data);
    case OnCloseWr(_) => SlotCloseWr(i, c, age, h);
    case OnRst(_) => SlotRst(i, c, age, h);
  }

  lemma WhoIsLive(w: World, e: Event, i: nat)
    requires Inv(w) && !e.Sweep? && !IsSyn(e) && Who(w.tun, e) == Some(i)
    ensures Live(w.ten[i])
  {
    assert SlotInv(i, w.tun.conns[i], w.tun.age[i], w.ten[i]);
    assert w.tun.conns[i].state != Closed;
  }

  lemma SynEventKeeps(w: World, e: Event, i: nat)
    requires Inv(w) && IsSyn(e) && Who(w.tun, e) == Some(i)
    ensures var w' := StepWorld(w, e);
            SlotInv(i, w'.tun.conns[i], w'.tun.age[i], w'.ten[i])
  {
    assert SlotInv(i, w.tun.conns[i], w.tun.age[i], w.ten[i]);
    SlotOpen(i, w.tun.age[i], e.p);
  }

  lemma OtherEventKeeps(w: World, e: Event, i: nat)
    requires Inv(w) && !e.Sweep? && !IsSyn(e) && Who(w.tun, e) == Some(i)
    ensures var w' := StepWorld(w, e);
            && SlotInv(i, w'.tun.conns[i], w'.tun.age[i], w'.ten[i])
            && (w'.tun.conns[i].state != Closed ==> TupleOf(w'.tun.conns[i]) == TupleOf(w.tun.conns[i]))
  {
    assert SlotInv(i, w.tun.conns[i], w.tun.age[i], w.ten[i]);
    WhoIsLive(w, e, i);
    SlotStep(i, w.tun.conns[i], w.tun.age[i], w.ten[i], e);
    SawKeepsTuple(w.ten[i], e);
  }

  /** What a packet, and what a message from the peer, may change of a history. */
  lemma PacketChanges(h: Tenancy, p: TcpPacket)
    ensures var h' := SawPacket(h, p);
            h' == h.(acked := h'.acked, fins := h'.fins, fromPeer := h'.fromPeer, inOrder := h'.inOrder,
                     aborted := h'.aborted, rst := h'.rst, ackNo := h'.ackNo, due := h'.due)
  {
  }

  lemma MessageChanges(h: Tenancy, e: Event)
    requires !e.Sweep? && !e.Arrive?
    ensures var h' := Saw(h, e);
            h' == h.(openAcks := h'.openAcks, closeWrs := h'.closeWrs, fromMux := h'.fromMux,
                     aborted := h'.aborted, muxReset := h'.muxReset, due := h'.due)
  {
    match e
    case OnOpenAck(_, status) => DueChanges(h, if status != 0 then 0x14 else 0x12, 1);
    case OnData(_, data) => DueChanges(h, 0x18, Pieces(|data|));
    case OnCloseWr(_) => DueChanges(h, 0x11, 1);
    case OnRst(_) => DueChanges(h, 0x14, 1);
  }

  lemma DueChanges(h: Tenancy, flags: byte, n: nat)
    ensures Due(h, flags, n) == h.(due := Due(h, flags, n).due)
  {
  }

  lemma SawKeepsTuple(h: Tenancy, e: Event)
    requires !e.Sweep?
    ensures Saw(h, e).tuple == h.tuple
  {
    if e.Arrive? {
      PacketChanges(h, e.p);
    } else {
      MessageChanges(h, e);
    }
  }

  lemma EventKeeps(w: World, e: Event, i: nat)
    requires Inv(w) && !e.Sweep? && Who(w.tun, e) == Some(i)
    ensures var w' := StepWorld(w, e);
            && SlotInv(i, w'.tun.conns[i], w'.tun.age[i], w'.ten[i])
            && w'.tun.conns == w.tun.conns[i := w'.tun.conns[i]] && w'.tun.age == w.tun.age
            && w'.ten == w.ten[i := w'.ten[i]]
            && (w'.tun.conns[i].state != Closed && !IsSyn(e) ==> TupleOf(w'.tun.conns[i]) == TupleOf(w.tun.conns[i]))
  {
    if IsSyn(e) {
      SynEventKeeps(w, e, i);
    } else {
      OtherEventKeeps(w, e, i);
    }
  }

  lemma SweepKeeps(w: World)
    requires Inv(w)
    ensures Inv(StepWorld(w, Sweep))
  {
    var w' := StepWorld(w, Sweep);
    InvSids(w);
    forall i | 0 <= i < MAX_TCP_CONNS
      ensures SlotInv(i, w'.tun.conns[i], w'.tun.age[i], w'.ten[i])
      ensures w'.tun.conns[i].state != Closed ==> w'.tun.conns[i] == w.tun.conns[i]
    {
      SweepIsPointwise(w.tun, i);
      SlotSweep(i, w.tun.conns[i], w.tun.age[i], w.ten[i]);
      SweepRecorded(w.tun, i, w.ten[i], SawSweep(w.ten[i]));
    }
  }

  lemma SynKeepsDistinct(t: Tun, i: nat, p: TcpPacket, c: Conn)
    requires Distinct(t) && i < |t.conns| && TupleOf(c) == TupleOfPacket(p)
    requires Find(t.conns, TupleOfPacket(p), 0).None?
    ensures Distinct(t.(conns := t.conns[i := c]))
  {
    var conns := t.conns[i := c];
    forall j, k | 0 <= j < k < |conns| && conns[j].state != Closed && conns[k].state != Closed
      ensures TupleOf(conns[j]) != TupleOf(conns[k])
    {
      assert j != i ==> !Matches(t.conns[j], TupleOfPacket(p));
      assert k != i ==> !Matches(t.conns[k], TupleOfPacket(p));
    }
  }

  lemma OneSlotKeepsDistinct(t: Tun, i: nat, c: Conn)
    requires Distinct(t) && i < |t.conns| && t.conns[i].state != Closed
    requires c.state == Closed || TupleOf(c) == TupleOf(t.conns[i])
    ensures Distinct(t.(conns := t.conns[i := c]))
  {
  }

  lemma WhoIsInUse(t: Tun, e: Event, i: nat)
    requires !e.Sweep? && !IsSyn(e) && Who(t, e) == Some(i)
    ensures t.conns[i].state != Closed
  {
  }

  lemma EventKeepsDistinct(w: World, e: Event, i: nat)
    requires Inv(w) && !e.Sweep? && Who(w.tun, e) == Some(i)
    ensures Distinct(StepWorld(w, e).tun)
  {
    EventKeeps(w, e, i);
    var c := StepWorld(w, e).tun.conns[i];
    if IsSyn(e) {
      SynKeepsDistinct(w.tun, i, e.p, c);
    } else {
      WhoIsInUse(w.tun, e, i);
      OneSlotKeepsDistinct(w.tun, i, c);
    }
    assert StepWorld(w, e).tun == w.tun.(conns := w.tun.conns[i := c]);
  }

  lemma StepKeeps(w: World, e: Event)
    requires Inv(w)
    ensures Inv(StepWorld(w, e))
  {
    if e.Sweep? {
      SweepKeeps(w);
    } else {
      var i := Who(w.tun, e);
      if i.Some? {
        EventKeeps(w, e, i.value);
        EventKeepsDistinct(w, e, i.value);
      }
    }
  }

  lemma {:induction false} RunKeeps(w: World, es: seq<Event>)
    requires Inv(w)
    ensures Inv(RunWorld(w, es))
    decreases |es|
  {
    if es != [] {
      StepKeeps(w, es[0]);
      RunKeeps(StepWorld(w, es[0]), es[1..]);
    }
  }

  lemma StartInv()
    ensures Inv(START)
  {
  }

  /** The shim's theorem, for every run from the empty table: in each slot, the state is the one its
      tenancy's history calls for, the sequence numbers account for exactly what the history saw,
      the segments written tile the sequence space and carry exactly the mux data, and the TCP_DATA
      frames carry exactly the packets' payloads. */
  lemma Reachable(es: seq<Event>, i: nat)
    requires i < MAX_TCP_CONNS
    ensures var w := RunWorld(START, es);
            && w.tun == Run(EMPTY, es) && Inv(w)
            && SlotInv(i, w.tun.conns[i], w.tun.age[i], w.ten[i])
  {
    StartInv();
    RunKeeps(START, es);
    RunWorldIsRun(START, es);
  }

  // ----- what follows in every reachable state -----

  lemma TupleLookup(t: Tun, i: nat, tuple: Query)
    requires Distinct(t) && i < |t.conns| && tuple.ByTuple?
    ensures Find(t.conns, tuple, 0) == Some(i) <==> t.conns[i].state != Closed && TupleOf(t.conns[i]) == tuple
  {
    var f := Find(t.conns, tuple, 0);
    if f.None? {
      assert !Matches(t.conns[i], tuple);
    }
  }

  lemma SidLookup(conns: seq<Conn>, i: nat, sid: u16)
    requires SidsInPlace(conns) && |conns| == MAX_TCP_CONNS && i < |conns|
    ensures Find(conns, BySid(sid), 0) == Some(i) <==> conns[i].state != Closed && sid == STREAM_ID_BASE + i
  {
    var f := Find(conns, BySid(sid), 0);
    SidValue(i);
    if f.None? {
      assert !Matches(conns[i], BySid(sid));
    } else {
      SidValue(f.value);
      assert Matches(conns[f.value], BySid(sid)) && conns[f.value].streamId == Sid(f.value);
      if conns[i].state != Closed && sid == STREAM_ID_BASE + i {
        assert f.value == i;
      }
    }
  }

  /** Both lookups are the abstract maps: a tuple or a stream id finds slot i exactly if slot i is
      live under it, and so no two live slots share either. */
  lemma LookupsAgree(w: World, i: nat, tuple: Query, sid: u16)
    requires Inv(w) && i < MAX_TCP_CONNS && tuple.ByTuple?
    ensures Find(w.tun.conns, tuple, 0) == Some(i) <==> Live(w.ten[i]) && w.ten[i].tuple == tuple
    ensures Find(w.tun.conns, BySid(sid), 0) == Some(i) <==> Live(w.ten[i]) && sid == STREAM_ID_BASE + i
  {
    assert SlotInv(i, w.tun.conns[i], w.tun.age[i], w.ten[i]);
    InvSids(w);
    TupleLookup(w.tun, i, tuple);
    SidLookup(w.tun.conns, i, sid);
  }

  /** The events that end slot i's tenancy, in terms of the event and the history before it. */
  predicate Ends(w: World, e: Event, i: nat)
    requires Sized(w.tun) && |w.ten| == MAX_TCP_CONNS && i < MAX_TCP_CONNS
  {
    var h := w.ten[i];
    match e
    case Sweep => StateOf(h) == SynRcvd && h.age0 + h.sweeps == SYN_RCVD_MAX_AGE
    case Arrive(p) =>
      && Who(w.tun, e) == Some(i) && !Has(p.flags, TCP_FLAG_SYN)
      && (Has(p.flags, TCP_FLAG_RST) || (Has(p.flags, TCP_FLAG_FIN) && h.closeWrs > 0))
    case OnCloseWr(_) => Who(w.tun, e) == Some(i) && h.fins > 0
    case OnRst(_) => Who(w.tun, e) == Some(i)
    case OnOpenAck(_, status) => Who(w.tun, e) == Some(i) && status != 0
    case OnData(_, _) => false
  }

  /** A live slot is freed exactly by those events: the second of local FIN and CLOSE_WR, an RST
      from either side, a failed OPEN_ACK, or the sweep that finds it waiting at age 30. */
  lemma FreedExactly(w: World, e: Event, i: nat)
    requires Inv(w) && i < MAX_TCP_CONNS && Live(w.ten[i])
    ensures StepWorld(w, e).tun.conns[i].state == Closed <==> Ends(w, e, i)
  {
    assert SlotInv(i, w.tun.conns[i], w.tun.age[i], w.ten[i]);
    if e.Sweep? {
      SweepIsPointwise(w.tun, i);
    } else if Who(w.tun, e) == Some(i) {
      FreedByEvent(w, e, i);
    }
  }

  lemma FreedByEvent(w: World, e: Event, i: nat)
    requires Inv(w) && i < MAX_TCP_CONNS && Live(w.ten[i]) && !e.Sweep? && Who(w.tun, e) == Some(i)
    ensures StepWorld(w, e).tun.conns[i].state == Closed <==> Ends(w, e, i)
  {
    EventKeeps(w, e, i);
    var w' := StepWorld(w, e);
    assert SlotInv(i, w.tun.conns[i], w.tun.age[i], w.ten[i]);
    assert SlotInv(i, w'.tun.conns[i], w'.tun.age[i], w'.ten[i]);
  }

  /** After a packet with payload or FIN that leaves the slot live, the expected sequence number is
      the byte-exact one exactly if the packet carried the one expected before it. */
  lemma InOrderExactly(c: Conn, p: TcpPacket, h: Tenancy)
    requires c.state == StateOf(h) && Live(SawPacket(h, p)) && Live(h)
    requires p.payload != [] || Has(p.flags, TCP_FLAG_FIN)
    ensures ConnArrive(c, p).0.peerSeqNext == Expected(SawPacket(h, p)) <==> p.seqNo == Expected(h)
  {
    var n := |p.payload| + if Has(p.flags, TCP_FLAG_FIN) then 1 else 0;
    NextNumber(c, p, h, n);
    Add32Twice(h.synSeq, 1 + |h.fromPeer| + h.fins, n);
    Add32Cancels(p.seqNo, Expected(h), n);
  }

  lemma NextNumber(c: Conn, p: TcpPacket, h: Tenancy, n: nat)
    requires c.state == StateOf(h) && Live(SawPacket(h, p)) && Live(h)
    requires n == |p.payload| + (if Has(p.flags, TCP_FLAG_FIN) then 1 else 0) && n > 0
    ensures ConnArrive(c, p).0.peerSeqNext == Add32(p.seqNo, n)
    ensures Expected(SawPacket(h, p)) == Add32(h.synSeq, 1 + |h.fromPeer| + h.fins + n)
  {
    PayloadOutput(c, p);
  }

  lemma Add32Cancels(a: u32, b: u32, n: nat)
    ensures Add32(a, n) == Add32(b, n) <==> a == b
  {
    var p, q := (a + n) / 0x1_0000_0000, (b + n) / 0x1_0000_0000;
    assert Add32(a, n) == a + n - p * 0x1_0000_0000 && Add32(b, n) == b + n - q * 0x1_0000_0000;
  }

  /** No tenancy waits for the mux through more than 30 - age0 sweeps, age0 being the age its slot had
      when it was opened; so none is seen waiting by 31. */
  lemma WaitsAtMost(es: seq<Event>, i: nat)
    requires i < MAX_TCP_CONNS
    ensures var h := RunWorld(START, es).ten[i];
            StateOf(h) == SynRcvd ==> h.age0 + h.sweeps <= SYN_RCVD_MAX_AGE
  {
    Reachable(es, i);
  }

  /** Every segment ever written for a slot fits write_segment's 1072-byte buffer, and both its
      checksums check to 0; read back, it carries the next sequence number and the piece. */
  lemma WrittenSegmentsValid(w: World, i: nat, k: nat)
    requires Inv(w) && i < MAX_TCP_CONNS && k < |w.ten[i].segs|
    ensures var s := w.ten[i].segs[k];
            && s.ToTun? && |TunSegment.Framed(s.c, s.flags, s.payload)| <= 1072
            && var p := Packet(s.c, s.flags, s.payload);
               && InternetChecksum.Checksum(p[..20]) == 0
               && InternetChecksum.Checksum(Pseudo(s.c.dstIp, s.c.srcIp, IPPROTO_TCP, |p| - 20) + p[20..]) == 0
               && ParseTcp(p) ==
                    Some(TcpPacket(s.c.dstIp, s.c.dstPort, s.c.srcIp, s.c.srcPort, s.c.ourSeqNext, s.flags, s.payload))
  {
    assert SlotInv(i, w.tun.conns[i], w.tun.age[i], w.ten[i]);
    var s := w.ten[i].segs[k];
    PacketValid(s.c, s.flags, s.payload);
    PacketRoundTrip(s.c, s.flags, s.payload);
  }
}
