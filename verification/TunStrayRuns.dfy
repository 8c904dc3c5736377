/** Runs of the shim and its link on which what it acknowledged does not arrive where it should. */
module TunStrayRuns {
  import opened Bytes
  import opened Frame
  import opened MuxSpec
  import opened LinkStream
  import opened TunSegment
  import opened TunTable
  import opened TunHistory
  import opened TunReuse
  import opened TunFarEnd
  import opened TunStray
  import E = EndToEnd
  import SQ = SendQueueSpec

  /** Only slot 0 may be in use. */
  ghost predicate Ready(y: Sys) { SysInv(y, 0) && Lone(y.w) }

  /** Slot 0 is live under tuple and has taken bytes from the local end. */
  ghost predicate Taking(y: Sys, tuple: Query, bytes: seq<byte>)
    requires Ready(y)
  {
    Live(y.w.ten[0]) && y.w.ten[0].tuple == tuple && y.w.ten[0].fromPeer == bytes
  }

  /** A packet that carries payload and no SYN, RST or FIN. */
  predicate Plain(q: TcpPacket) {
    && 0 < |q.payload| <= MAX_PAYLOAD && !Has(q.flags, TCP_FLAG_SYN) && !Has(q.flags, TCP_FLAG_RST)
    && !Has(q.flags, TCP_FLAG_FIN)
  }

  function DataOfPacket(q: TcpPacket): Message { TcpData(Sid(0), q.payload) }

  lemma Syn(y: Sys, p: TcpPacket, answers: seq<SQ.Answer>)
    requires Ready(y) && y.w.tun.conns[0].state == Closed && IsSyn(Arrive(p))
    ensures var y' := StepSys(y, 0, Shim(Arrive(p), answers));
            var refused := Refused(y.s.q, OpenOf(0, p), SQ.AnswerAt(answers, 0));
            && Ready(y') && Taking(y', TupleOfPacket(p), []) && y'.w.tun.conns[0].state == SynRcvd
            && y'.far == Far(!refused, if refused then StreamBytes(y.s.msgs, Sid(0)) else [], [], 0)
            && y'.s == E.StepSide(y.s, E.Send(OpenOf(0, p), SQ.AnswerAt(answers, 0)))
  {
    LoneSyn(y.w, p);
    OpensFresh(y, 0, p, answers);
    OpensFreeSlot(y.w, p, 0);
    SynForwards(y.w, Arrive(p), 0);
    var w' := StepWorld(y.w, Arrive(p));
    assert SlotInv(0, w'.tun.conns[0], w'.tun.age[0], w'.ten[0]);
  }

  lemma Found(w: World, e: Event)
    requires Lone(w) && e.Arrive? && !IsSyn(e) && Live(w.ten[0]) && w.ten[0].tuple == TupleOfPacket(e.p)
    ensures Who(w.tun, e) == Some(0) && Lone(StepWorld(w, e))
    ensures StepWorld(w, e).tun.conns[0] == ConnArrive(w.tun.conns[0], e.p).0
    ensures var h := StepWorld(w, e).ten[0];
            && Live(h) == Live(SawPacket(w.ten[0], e.p)) && h.tuple == w.ten[0].tuple
            && h.fromPeer == SawPacket(w.ten[0], e.p).fromPeer
  {
    LookupsAgree(w, 0, w.ten[0].tuple, SID0);
    EventKeeps(w, e, 0);
    StepKeeps(w, e);
  }

  lemma Data(y: Sys, q: TcpPacket, answers: seq<SQ.Answer>)
    requires Ready(y) && Plain(q) && Taking(y, TupleOfPacket(q), y.w.ten[0].fromPeer)
    ensures var y' := StepSys(y, 0, Shim(Arrive(q), answers));
            && Ready(y') && Taking(y', TupleOfPacket(q), y.w.ten[0].fromPeer + q.payload)
            && y'.far == Offered(y.s, y.far, Sid(0), DataOfPacket(q), SQ.AnswerAt(answers, 0))
            && y'.s == E.StepSide(y.s, E.Send(DataOfPacket(q), SQ.AnswerAt(answers, 0)))
            && y'.w.tun.conns[0].peerSeqNext == Add32(q.seqNo, |q.payload|)
            && var state := y.w.tun.conns[0].state;
               y'.w.tun.conns[0].state == if state == SynRcvd && Has(q.flags, TCP_FLAG_ACK) then Estab else state
  {
    Found(y.w, Arrive(q));
    PacketFar(y, 0, q, answers);
    PacketOut(y.w, q, 0);
    OnlySend(y.s, y.far, Step(y.w.tun, Arrive(q)).out, answers);
    PayloadOutput(y.w.tun.conns[0], q);
  }

  /** A packet's frame and the segment that acknowledges it. */
  lemma OnlySend(s: E.Side, far: Far, out: seq<Out>, answers: seq<SQ.Answer>)
    requires 1 <= |out| <= 2 && out[0].ToMux? && (|out| == 2 ==> out[1].ToTun?)
    ensures var r := Offer(s, far, Sid(0), out, answers, 0);
            && r.0 == E.StepSide(s, E.Send(out[0].msg, SQ.AnswerAt(answers, 0)))
            && r.1 == Offered(s, far, Sid(0), out[0].msg, SQ.AnswerAt(answers, 0))
  {
    OfferMessage(s, far, Sid(0), out, answers, 0);
    if |out| == 2 {
      assert out[1..][1..] == [];
    }
  }

  lemma Rst(y: Sys, r: TcpPacket, answers: seq<SQ.Answer>)
    requires Ready(y) && Taking(y, TupleOfPacket(r), y.w.ten[0].fromPeer) && |r.payload| <= MAX_PAYLOAD
    requires !Has(r.flags, TCP_FLAG_SYN) && Has(r.flags, TCP_FLAG_RST)
    ensures var y' := StepSys(y, 0, Shim(Arrive(r), answers));
            && Ready(y') && y'.w.tun.conns[0].state == Closed && y'.far == y.far
            && y'.s == E.StepSide(y.s, E.Send(TcpRst(Sid(0), RST_REASON_PEER_RESET), SQ.AnswerAt(answers, 0)))
  {
    Found(y.w, Arrive(r));
    assert SlotInv(0, y.w.tun.conns[0], y.w.tun.age[0], y.w.ten[0]);
    ShimKeeps(y, 0, Arrive(r), answers);
    OnlySend(y.s, y.far, Step(y.w.tun, Arrive(r)).out, answers);
  }

  // ----- acknowledged, but never sent -----

  lemma RunSysCons(y: Sys, a: Act, acts: seq<Act>)
    requires Sized(y.w.tun) && |y.w.ten| == MAX_TCP_CONNS
    ensures RunSys(y, 0, [a] + acts) == RunSys(StepSys(y, 0, a), 0, acts)
  {
    assert ([a] + acts)[1..] == acts;
  }

  lemma RefusedStays(s: E.Side, m: Message, rc: SQ.Answer)
    requires Refused(s.q, m, rc) && Sendable(m)
    ensures E.StepSide(s, E.Send(m, rc)) == s
  {
    RefusedExactly(s.q, m, rc);
  }

  lemma SynThenData(y: Sys, p: TcpPacket, q: TcpPacket)
    requires Ready(y) && y.w.tun.conns[0].state == Closed && y.s.q.cid == 0 && StreamBytes(y.s.msgs, Sid(0)) == []
    requires IsSyn(Arrive(p)) && Plain(q) && Has(q.flags, TCP_FLAG_ACK) && TupleOfPacket(p) == TupleOfPacket(q)
    ensures var y' := StepSys(StepSys(y, 0, Shim(Arrive(p), [])), 0, Shim(Arrive(q), []));
            && Ready(y') && Taking(y', TupleOfPacket(q), q.payload) && y'.far == Far(false, [], [], |q.payload|)
            && y'.w.tun.conns[0].state == Estab && y'.w.tun.conns[0].peerSeqNext == Add32(q.seqNo, |q.payload|)
  {
    SynUnsent(y, p);
    DataUnsent(StepSys(y, 0, Shim(Arrive(p), [])), q);
  }

  lemma SynUnsent(y: Sys, p: TcpPacket)
    requires Ready(y) && y.w.tun.conns[0].state == Closed && y.s.q.cid == 0 && StreamBytes(y.s.msgs, Sid(0)) == []
    requires IsSyn(Arrive(p))
    ensures var y' := StepSys(y, 0, Shim(Arrive(p), []));
            && Ready(y') && Taking(y', TupleOfPacket(p), []) && y'.far == Far(false, [], [], 0) && y'.s.q.cid == 0
            && y'.w.tun.conns[0].state == SynRcvd
  {
    Syn(y, p, []);
    RefusedStays(y.s, OpenOf(0, p), SQ.AnswerAt([], 0));
  }

  lemma DataUnsent(y: Sys, q: TcpPacket)
    requires Ready(y) && Taking(y, TupleOfPacket(q), []) && y.far == Far(false, [], [], 0) && y.s.q.cid == 0
    requires y.w.tun.conns[0].state == SynRcvd && Plain(q) && Has(q.flags, TCP_FLAG_ACK)
    ensures var y' := StepSys(y, 0, Shim(Arrive(q), []));
            && Ready(y') && Taking(y', TupleOfPacket(q), q.payload) && y'.far == Far(false, [], [], |q.payload|)
            && y'.w.tun.conns[0].state == Estab && y'.w.tun.conns[0].peerSeqNext == Add32(q.seqNo, |q.payload|)
  {
    Data(y, q, []);
    assert [] + q.payload == q.payload;
  }

  /** From the start, with no channel open: a SYN, and a packet of the same connection with ACK and payload.
      The connection is established and the payload acknowledged, and none of it was accepted. */
  lemma AckedUnsent(p: TcpPacket, q: TcpPacket)
    requires IsSyn(Arrive(p)) && Plain(q) && Has(q.flags, TCP_FLAG_ACK) && TupleOfPacket(p) == TupleOfPacket(q)
    ensures var y := RunSys(BOOT, 0, [Shim(Arrive(p), [])] + [Shim(Arrive(q), [])]);
            && y.far == Far(false, [], [], |q.payload|) && y.w.ten[0].fromPeer == q.payload
            && y.w.tun.conns[0].state == Estab && y.w.tun.conns[0].peerSeqNext == Add32(q.seqNo, |q.payload|)
  {
    BootInv(0);
    RunSysCons(BOOT, Shim(Arrive(p), []), [Shim(Arrive(q), [])]);
    var y1 := StepSys(BOOT, 0, Shim(Arrive(p), []));
    RunSysCons(y1, Shim(Arrive(q), []), []);
    assert [Shim(Arrive(q), [])] + [] == [Shim(Arrive(q), [])];
    SynThenData(BOOT, p, q);
  }

  // ----- on another connection's stream -----

  ghost predicate Clear(s: E.Side) { s.q.cid != 0 && s.q.frames == [] }

  lemma SendClear(s: E.Side, m: Message, rc: SQ.Answer)
    requires Clear(s) && Sendable(m) && rc != SQ.Backpressure
    ensures Clear(E.StepSide(s, E.Send(m, rc))) && (Refused(s.q, m, rc) <==> rc == SQ.Failed)
  {
  }

  /** A connection whose RST the mux refuses, after its OPEN and its data were accepted. */
  lemma FirstConnection(y: Sys, p: TcpPacket, q: TcpPacket, r: TcpPacket)
    requires Ready(y) && y.w.tun.conns[0].state == Closed && Clear(y.s)
    requires IsSyn(Arrive(p)) && Plain(q) && TupleOfPacket(p) == TupleOfPacket(q) == TupleOfPacket(r)
    requires !Has(r.flags, TCP_FLAG_SYN) && Has(r.flags, TCP_FLAG_RST) && |r.payload| <= MAX_PAYLOAD
    ensures var y1 := StepSys(y, 0, Shim(Arrive(p), [SQ.Accepted]));
            var y2 := StepSys(y1, 0, Shim(Arrive(q), [SQ.Accepted]));
            var y3 := StepSys(y2, 0, Shim(Arrive(r), [SQ.Failed]));
            Ready(y3) && y3.w.tun.conns[0].state == Closed && Clear(y3.s) && StreamBytes(y3.s.msgs, Sid(0)) == q.payload
  {
    var y1 := StepSys(y, 0, Shim(Arrive(p), [SQ.Accepted]));
    Syn(y, p, [SQ.Accepted]);
    SendClear(y.s, OpenOf(0, p), SQ.Accepted);
    var y2 := StepSys(y1, 0, Shim(Arrive(q), [SQ.Accepted]));
    Data(y1, q, [SQ.Accepted]);
    SendClear(y1.s, DataOfPacket(q), SQ.Accepted);
    Rst(y2, r, [SQ.Failed]);
    SendClear(y2.s, TcpRst(Sid(0), RST_REASON_PEER_RESET), SQ.Failed);
    assert [] + ([] + q.payload) == q.payload;
  }

  /** A connection whose OPEN the mux refuses and whose data it accepts. */
  lemma SecondConnection(y: Sys, p: TcpPacket, q: TcpPacket)
    requires Ready(y) && y.w.tun.conns[0].state == Closed && Clear(y.s)
    requires IsSyn(Arrive(p)) && Plain(q) && TupleOfPacket(p) == TupleOfPacket(q)
    ensures var y1 := StepSys(y, 0, Shim(Arrive(p), [SQ.Failed]));
            var y2 := StepSys(y1, 0, Shim(Arrive(q), [SQ.Accepted]));
            && Ready(y2) && Taking(y2, TupleOfPacket(q), q.payload) && Clear(y2.s)
            && y2.far == Far(false, StreamBytes(y.s.msgs, Sid(0)), q.payload, 0)
            && y2.w.tun.conns[0].peerSeqNext == Add32(q.seqNo, |q.payload|)
  {
    var y1 := StepSys(y, 0, Shim(Arrive(p), [SQ.Failed]));
    Syn(y, p, [SQ.Failed]);
    SendClear(y.s, OpenOf(0, p), SQ.Failed);
    Data(y1, q, [SQ.Accepted]);
    SendClear(y1.s, DataOfPacket(q), SQ.Accepted);
    assert [] + q.payload == q.payload;
  }

  /** The two connections, one after the other on an open channel. */
  function MergeRun(p1: TcpPacket, q1: TcpPacket, r1: TcpPacket, p2: TcpPacket, q2: TcpPacket): seq<Act> {
    [Link(E.Opened(0, 1, SQ.Accepted))]
    + ([Shim(Arrive(p1), [SQ.Accepted])] + ([Shim(Arrive(q1), [SQ.Accepted])] + ([Shim(Arrive(r1), [SQ.Failed])]
    + ([Shim(Arrive(p2), [SQ.Failed])] + [Shim(Arrive(q2), [SQ.Accepted])]))))
  }

  lemma MergeRuns(y: Sys, p1: TcpPacket, q1: TcpPacket, r1: TcpPacket, p2: TcpPacket, q2: TcpPacket)
    requires Sized(y.w.tun) && |y.w.ten| == MAX_TCP_CONNS
    ensures var y0 := StepSys(y, 0, Link(E.Opened(0, 1, SQ.Accepted)));
            var y1 := StepSys(y0, 0, Shim(Arrive(p1), [SQ.Accepted]));
            var y2 := StepSys(y1, 0, Shim(Arrive(q1), [SQ.Accepted]));
            var y3 := StepSys(y2, 0, Shim(Arrive(r1), [SQ.Failed]));
            var y4 := StepSys(y3, 0, Shim(Arrive(p2), [SQ.Failed]));
            RunSys(y, 0, MergeRun(p1, q1, r1, p2, q2)) == StepSys(y4, 0, Shim(Arrive(q2), [SQ.Accepted]))
  {
    var a0, a1 := Link(E.Opened(0, 1, SQ.Accepted)), Shim(Arrive(p1), [SQ.Accepted]);
    var a2, a3 := Shim(Arrive(q1), [SQ.Accepted]), Shim(Arrive(r1), [SQ.Failed]);
    var a4, a5 := Shim(Arrive(p2), [SQ.Failed]), Shim(Arrive(q2), [SQ.Accepted]);
    var y0 := StepSys(y, 0, a0);
    var y1 := StepSys(y0, 0, a1);
    var y2 := StepSys(y1, 0, a2);
    var y3 := StepSys(y2, 0, a3);
    RunSysCons(y, a0, [a1] + ([a2] + ([a3] + ([a4] + [a5]))));
    RunSysCons(y0, a1, [a2] + ([a3] + ([a4] + [a5])));
    RunSysCons(y1, a2, [a3] + ([a4] + [a5]));
    RunSysCons(y2, a3, [a4] + [a5]);
    RunSysCons(y3, a4, [a5]);
    assert [a5] + [] == [a5];
    RunSysCons(StepSys(y3, 0, a4), a5, []);
  }

  lemma OpensChannel()
    ensures var y := StepSys(BOOT, 0, Link(E.Opened(0, 1, SQ.Accepted)));
            Ready(y) && y.w.tun.conns[0].state == Closed && Clear(y.s)
  {
    BootInv(0);
    LinkKeeps(BOOT, 0, E.Opened(0, 1, SQ.Accepted));
  }

  /** From the start: a connection's OPEN and data are accepted, its RST and the next connection's OPEN are
      refused, and that one's data is accepted. Everything of the second is acknowledged and nothing of
      it refused, and all of it is on the stream, behind the first one's bytes. */
  lemma TenanciesMerge(p1: TcpPacket, q1: TcpPacket, r1: TcpPacket, p2: TcpPacket, q2: TcpPacket)
    requires IsSyn(Arrive(p1)) && Plain(q1) && TupleOfPacket(p1) == TupleOfPacket(q1) == TupleOfPacket(r1)
    requires !Has(r1.flags, TCP_FLAG_SYN) && Has(r1.flags, TCP_FLAG_RST) && |r1.payload| <= MAX_PAYLOAD
    requires IsSyn(Arrive(p2)) && Plain(q2) && TupleOfPacket(p2) == TupleOfPacket(q2)
    ensures var y := RunSys(BOOT, 0, MergeRun(p1, q1, r1, p2, q2));
            && Live(y.w.ten[0]) && y.w.ten[0].tuple == TupleOfPacket(p2) && y.w.ten[0].fromPeer == q2.payload
            && y.w.tun.conns[0].peerSeqNext == Add32(q2.seqNo, |q2.payload|)
            && y.far.got == q2.payload && y.far.lost == 0 && y.s.q.frames == []
            && StreamBytes(y.s.msgs, Sid(0)) == q1.payload + q2.payload
  {
    var y0 := StepSys(BOOT, 0, Link(E.Opened(0, 1, SQ.Accepted)));
    OpensChannel();
    MergeRuns(BOOT, p1, q1, r1, p2, q2);
    FirstConnection(y0, p1, q1, r1);
    var y1 := StepSys(y0, 0, Shim(Arrive(p1), [SQ.Accepted]));
    var y2 := StepSys(y1, 0, Shim(Arrive(q1), [SQ.Accepted]));
    SecondConnection(StepSys(y2, 0, Shim(Arrive(r1), [SQ.Failed])), p2, q2);
  }
}
