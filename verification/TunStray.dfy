/** Where the shim's bytes end up when a send is refused: behind another connection's, or nowhere. */
module TunStray {
  import opened Bytes
  import opened Frame
  import opened MuxSpec
  import opened LinkStream
  import opened TunSegment
  import opened TunTable
  import opened TunHistory
  import opened TunFarEnd
  import E = EndToEnd
  import SQ = SendQueueSpec

  // ----- whose bytes the stream holds -----

  /** No event of acts opens slot i anew. */
  ghost predicate SameTenant(y: Sys, acts: seq<Act>, i: nat)
    requires Sized(y.w.tun) && |y.w.ten| == MAX_TCP_CONNS
    decreases |acts|
  {
    acts == [] || (!OpensSlot(y.w, acts[0], i) && SameTenant(StepSys(y, i, acts[0]), acts[1..], i))
  }

  predicate OpensSlot(w: World, a: Act, i: nat) { a.Shim? && IsSyn(a.e) && Who(w.tun, a.e) == Some(i) }

  lemma {:induction false} QuietKeepsStale(s: E.Side, far: Far, sid: u16, out: seq<Out>,
                                           answers: seq<SQ.Answer>, k: nat)
    requires Quiet(out)
    ensures Offer(s, far, sid, out, answers, k).1.stale == far.stale
    decreases |out|
  {
    if out != [] {
      if out[0].ToTun? {
        OfferSegment(s, far, sid, out, answers, k);
        QuietKeepsStale(s, far, sid, out[1..], answers, k);
      } else {
        var m, rc := out[0].msg, SQ.AnswerAt(answers, k);
        OfferMessage(s, far, sid, out, answers, k);
        QuietKeepsStale(E.StepSide(s, E.Send(m, rc)), Offered(s, far, sid, m, rc), sid, out[1..], answers, k + 1);
      }
    }
  }

  lemma StepKeepsStale(y: Sys, i: nat, a: Act)
    requires i < MAX_TCP_CONNS && SysInv(y, i) && Allowed(a, i) && !OpensSlot(y.w, a, i)
    ensures StepSys(y, i, a).far.stale == y.far.stale
  {
    if a.Shim? && IsSyn(a.e) {
      SynOut(y.w, a.e);
      if Who(y.w.tun, a.e).Some? {
        SidValue(i);
        SidValue(Who(y.w.tun, a.e).value);
        OfferOne(y.s, y.far, Sid(i), Step(y.w.tun, a.e).out[0].msg, a.answers);
      }
    } else if a.Shim? {
      EventForwards(y.w, a.e, i);
      QuietKeepsStale(y.s, y.far, Sid(i), Step(y.w.tun, a.e).out, a.answers, 0);
    }
  }

  lemma {:induction false} RunKeepsStale(y: Sys, i: nat, acts: seq<Act>)
    requires i < MAX_TCP_CONNS && SysInv(y, i) && (forall a <- acts :: Allowed(a, i)) && SameTenant(y, acts, i)
    ensures SysInv(RunSys(y, i, acts), i) && RunSys(y, i, acts).far.stale == y.far.stale
    decreases |acts|
  {
    if acts != [] {
      var a := acts[0];
      assert a in acts;
      StepKeepsStale(y, i, a);
      StepSysKeeps(y, i, a);
      RunKeepsStale(StepSys(y, i, a), i, acts[1..]);
    }
  }

  /** The OPEN a SYN gives rise to. */
  function OpenOf(i: nat, p: TcpPacket): Message { TcpOpen(Sid(i), Endpoint(ADDR_TYPE_IPV4, p.dstPort, p.dstIp)) }

  lemma OpensFresh(y: Sys, i: nat, p: TcpPacket, answers: seq<SQ.Answer>)
    requires i < MAX_TCP_CONNS && SysInv(y, i) && OpensSlot(y.w, Shim(Arrive(p), answers), i)
    ensures var y' := StepSys(y, i, Shim(Arrive(p), answers));
            var refused := Refused(y.s.q, OpenOf(i, p), SQ.AnswerAt(answers, 0));
            && SysInv(y', i)
            && y'.far == Far(!refused, if refused then StreamBytes(y.s.msgs, Sid(i)) else [], [], 0)
            && y'.s == E.StepSide(y.s, E.Send(OpenOf(i, p), SQ.AnswerAt(answers, 0)))
  {
    SynKeeps(y, i, Arrive(p), answers);
    SynOut(y.w, Arrive(p));
    OfferOne(y.s, y.far, Sid(i), OpenOf(i, p), answers);
  }

  /** At any time of a tenancy, its stream holds the tenancy's bytes alone exactly if its OPEN was not
      refused or the stream held nothing then; otherwise they stand behind an earlier tenancy's. */
  lemma StreamIsOwn(y: Sys, i: nat, p: TcpPacket, answers: seq<SQ.Answer>, acts: seq<Act>)
    requires i < MAX_TCP_CONNS && SysInv(y, i) && OpensSlot(y.w, Shim(Arrive(p), answers), i)
    requires var y1 := StepSys(y, i, Shim(Arrive(p), answers));
             (forall a <- acts :: Allowed(a, i)) && SameTenant(y1, acts, i)
    ensures var y' := RunSys(StepSys(y, i, Shim(Arrive(p), answers)), i, acts);
            var before := StreamBytes(y.s.msgs, Sid(i));
            var refused := Refused(y.s.q, OpenOf(i, p), SQ.AnswerAt(answers, 0));
            && StreamBytes(y'.s.msgs, Sid(i)) == (if refused then before else []) + y'.far.got
            && (StreamBytes(y'.s.msgs, Sid(i)) == y'.far.got <==> !refused || before == [])
  {
    OpensFresh(y, i, p, answers);
    RunKeepsStale(StepSys(y, i, Shim(Arrive(p), answers)), i, acts);
  }

  // ----- what becomes of one packet's bytes -----

  /** A packet with payload for slot i: the shim acknowledges it whatever becomes of it, and it is on the
      stream exactly if the frame is not refused. */
  lemma AckedAnyway(y: Sys, i: nat, p: TcpPacket, answers: seq<SQ.Answer>)
    requires i < MAX_TCP_CONNS && SysInv(y, i) && Real(Arrive(p)) && p.payload != []
    requires !Has(p.flags, TCP_FLAG_SYN) && !Has(p.flags, TCP_FLAG_RST) && Who(y.w.tun, Arrive(p)) == Some(i)
    ensures var out := Step(y.w.tun, Arrive(p)).out;
            var m := TcpData(Sid(i), p.payload);
            var rc := SQ.AnswerAt(answers, 0);
            var bytes := StreamBytes(y.s.msgs, Sid(i));
            var y' := StepSys(y, i, Shim(Arrive(p), answers));
            && |out| >= 2 && out[0] == ToMux(m) && out[1].ToTun? && out[1].flags == TCP_FLAG_ACK
            && out[1].c.peerSeqNext == Add32(p.seqNo, |p.payload|)
            && y'.far == Offered(y.s, y.far, Sid(i), m, rc)
            && StreamBytes(y'.s.msgs, Sid(i)) == if Refused(y.s.q, m, rc) then bytes else bytes + p.payload
  {
    PacketOut(y.w, p, i);
    PacketFar(y, i, p, answers);
    OfferedBytes(y.s, y.far, Sid(i), TcpData(Sid(i), p.payload), SQ.AnswerAt(answers, 0));
  }

  lemma PacketFar(y: Sys, i: nat, p: TcpPacket, answers: seq<SQ.Answer>)
    requires i < MAX_TCP_CONNS && SysInv(y, i) && Real(Arrive(p)) && p.payload != []
    requires !Has(p.flags, TCP_FLAG_SYN) && !Has(p.flags, TCP_FLAG_RST) && Who(y.w.tun, Arrive(p)) == Some(i)
    ensures var y' := StepSys(y, i, Shim(Arrive(p), answers));
            && SysInv(y', i)
            && y'.far == Offered(y.s, y.far, Sid(i), TcpData(Sid(i), p.payload), SQ.AnswerAt(answers, 0))
  {
    ShimKeeps(y, i, Arrive(p), answers);
    PacketOut(y.w, p, i);
    DataOffer(y.s, y.far, Sid(i), Step(y.w.tun, Arrive(p)).out, answers);
  }

  lemma OfferedBytes(s: E.Side, far: Far, sid: u16, m: Message, rc: SQ.Answer)
    requires m.TcpData? && m.sid == sid
    ensures var far' := Offered(s, far, sid, m, rc);
            far'.stale + far'.got == if Refused(s.q, m, rc) then far.stale + far.got else far.stale + far.got + m.data
  {
    assert far.stale + (far.got + m.data) == far.stale + far.got + m.data;
  }

  lemma PacketOut(w: World, p: TcpPacket, i: nat)
    requires i < MAX_TCP_CONNS && Inv(w) && p.payload != []
    requires !Has(p.flags, TCP_FLAG_SYN) && !Has(p.flags, TCP_FLAG_RST) && Who(w.tun, Arrive(p)) == Some(i)
    ensures var out := Step(w.tun, Arrive(p)).out;
            && |out| >= 2 && out[0] == ToMux(TcpData(Sid(i), p.payload)) && NoData(out[1..])
            && out[1].ToTun? && out[1].flags == TCP_FLAG_ACK && out[1].c.peerSeqNext == Add32(p.seqNo, |p.payload|)
            && (!Has(p.flags, TCP_FLAG_FIN) ==> |out| == 2)
  {
    WhoIsLive(w, Arrive(p), i);
    assert SlotInv(i, w.tun.conns[i], w.tun.age[i], w.ten[i]);
    DataPacketOut(w.tun.conns[i], p);
  }

  lemma DataOffer(s: E.Side, far: Far, sid: u16, out: seq<Out>, answers: seq<SQ.Answer>)
    requires out != [] && out[0].ToMux? && NoData(out[1..])
    ensures Offer(s, far, sid, out, answers, 0).1 == Offered(s, far, sid, out[0].msg, SQ.AnswerAt(answers, 0))
  {
    var m, rc := out[0].msg, SQ.AnswerAt(answers, 0);
    OfferMessage(s, far, sid, out, answers, 0);
    NoDataKeepsFar(E.StepSide(s, E.Send(m, rc)), Offered(s, far, sid, m, rc), sid, out[1..], answers, 1);
  }

  /** Messages that are neither OPENs nor TCP_DATA. */
  ghost predicate NoData(out: seq<Out>) {
    forall k | 0 <= k < |out| && out[k].ToMux? :: !out[k].msg.TcpOpen? && !out[k].msg.TcpData?
  }

  lemma DataPacketOut(c: Conn, p: TcpPacket)
    requires p.payload != [] && !Has(p.flags, TCP_FLAG_RST)
    ensures var out := ConnArrive(c, p).1;
            && |out| >= 2 && out[0] == ToMux(TcpData(c.streamId, p.payload)) && NoData(out[1..])
            && out[1].ToTun? && out[1].flags == TCP_FLAG_ACK && out[1].c.peerSeqNext == Add32(p.seqNo, |p.payload|)
            && (!Has(p.flags, TCP_FLAG_FIN) ==> |out| == 2)
  {
  }

  lemma {:induction false} NoDataKeepsFar(s: E.Side, far: Far, sid: u16, out: seq<Out>, answers: seq<SQ.Answer>, k: nat)
    requires NoData(out)
    ensures Offer(s, far, sid, out, answers, k).1 == far
    decreases |out|
  {
    if out != [] {
      if out[0].ToTun? {
        OfferSegment(s, far, sid, out, answers, k);
        NoDataKeepsFar(s, far, sid, out[1..], answers, k);
      } else {
        var m, rc := out[0].msg, SQ.AnswerAt(answers, k);
        OfferMessage(s, far, sid, out, answers, k);
        NoDataKeepsFar(E.StepSide(s, E.Send(m, rc)), far, sid, out[1..], answers, k + 1);
      }
    }
  }
}
