/** The TCP shim in front of the send queue and the far end: what becomes of the bytes it acknowledges. */
module TunFarEnd {
  import opened Bytes
  import opened Frame
  import opened MuxSpec
  import opened MuxSession
  import opened LinkStream
  import opened LongFrames
  import opened TunSegment
  import opened TunTable
  import opened TunHistory
  import E = EndToEnd
  import SQ = SendQueueSpec
  import KotlinFrame

  // ----- the system -----

  /** Slot i's stream since the last OPEN offered on it: whether that OPEN was accepted, and if not, the
      bytes the stream had then; the bytes of the TCP_DATA frames accepted since, and the number of bytes
      refused. */
  datatype Far = Far(open: bool, stale: seq<byte>, got: seq<byte>, lost: nat)

  /** The shim, the link it shares with others, and slot i's stream. */
  datatype Sys = Sys(w: World, s: E.Side, far: Far)

  const BOOT := Sys(START, E.START, Far(false, [], [], 0))

  /** An event of the shim, with rfcomm_send's answers to what it sends; or anything else on the link. */
  datatype Act = Shim(e: Event, answers: seq<SQ.Answer>) | Link(op: E.Op)

  function Offered(s: E.Side, far: Far, sid: u16, m: Message, rc: SQ.Answer): Far {
    var taken := !Refused(s.q, m, rc);
    if StreamOf(m) != sid then far
    else if m.TcpOpen? then Far(taken, if taken then [] else StreamBytes(s.msgs, sid), [], 0)
    else if !m.TcpData? then far
    else if taken then far.(got := far.got + m.data)
    else far.(lost := far.lost + |m.data|)
  }

  /** The shim's mux sends, one after the other; it ignores their results. */
  function Offer(s: E.Side, far: Far, sid: u16, out: seq<Out>, answers: seq<SQ.Answer>, k: nat): (E.Side, Far)
    decreases |out|
  {
    if out == [] then (s, far)
    else if out[0].ToTun? then Offer(s, far, sid, out[1..], answers, k)
    else
      var m, rc := out[0].msg, SQ.AnswerAt(answers, k);
      Offer(E.StepSide(s, E.Send(m, rc)), Offered(s, far, sid, m, rc), sid, out[1..], answers, k + 1)
  }

  function StepSys(y: Sys, i: nat, a: Act): (y': Sys)
    requires Sized(y.w.tun) && |y.w.ten| == MAX_TCP_CONNS
    ensures Sized(y'.w.tun) && |y'.w.ten| == MAX_TCP_CONNS
  {
    match a
    case Shim(e, answers) =>
      var (s, far) := Offer(y.s, y.far, Sid(i), Step(y.w.tun, e).out, answers, 0);
      Sys(StepWorld(y.w, e), s, far)
    case Link(op) => y.(s := E.StepSide(y.s, op))
  }

  function RunSys(y: Sys, i: nat, acts: seq<Act>): (y': Sys)
    requires Sized(y.w.tun) && |y.w.ten| == MAX_TCP_CONNS
    ensures Sized(y'.w.tun) && |y'.w.ten| == MAX_TCP_CONNS
    decreases |acts|
  {
    if acts == [] then y else RunSys(StepSys(y, i, acts[0]), i, acts[1..])
  }

  // ----- the invariant -----

  /** far tells what the stream's bytes are, and accounts for the bytes forwarded. */
  predicate Accounts(bytes: seq<byte>, far: Far, forwarded: seq<byte>) {
    && bytes == far.stale + far.got
    && (far.open ==> far.stale == [])
    && |far.got| + far.lost == |forwarded|
    && (far.lost == 0 ==> far.got == forwarded)
  }

  ghost predicate SysInv(y: Sys, i: nat)
    requires i < MAX_TCP_CONNS
  {
    Inv(y.w) && LinkInv(y.s) && Accounts(StreamBytes(y.s.msgs, Sid(i)), y.far, y.w.ten[i].forwarded)
  }

  /** One message the shim offers. */
  lemma SendAccounts(s: E.Side, far: Far, sid: u16, forwarded: seq<byte>, m: Message, rc: SQ.Answer)
    requires LinkInv(s) && Accounts(StreamBytes(s.msgs, sid), far, forwarded) && Sendable(m) && Intact(m)
    ensures var s' := E.StepSide(s, E.Send(m, rc));
            var far' := Offered(s, far, sid, m, rc);
            && LinkInv(s')
            && Accounts(StreamBytes(s'.msgs, sid), far',
                        if StreamOf(m) != sid then forwarded else if m.TcpOpen? then []
                        else if m.TcpData? then forwarded + m.data else forwarded)
  {
    SendNotes(s, m, rc);
    StreamBytesSnoc(s.msgs, m, sid);
    var bytes := StreamBytes(s.msgs, sid);
    assert bytes + [] == bytes;
    if StreamOf(m) == sid && m.TcpData? {
      DataAccounts(bytes, far, forwarded, m.data);
    }
  }

  lemma DataAccounts(bytes: seq<byte>, far: Far, forwarded: seq<byte>, data: seq<byte>)
    requires Accounts(bytes, far, forwarded) && data != []
    ensures Accounts(bytes + data, far.(got := far.got + data), forwarded + data)
    ensures Accounts(bytes, far.(lost := far.lost + |data|), forwarded + data)
  {
    assert far.stale + (far.got + data) == far.stale + far.got + data;
  }

  // ----- what the shim sends -----

  /** Everything sent on the mux is on stream sid, opens nothing, and can be sent whole. */
  ghost predicate Speaks(out: seq<Out>, sid: u16) {
    forall k | 0 <= k < |out| && out[k].ToMux? ::
      StreamOf(out[k].msg) == sid && !out[k].msg.TcpOpen? && Sendable(out[k].msg) && Intact(out[k].msg)
  }

  /** The same without naming the stream. */
  ghost predicate Quiet(out: seq<Out>) {
    forall k | 0 <= k < |out| && out[k].ToMux? :: !out[k].msg.TcpOpen? && Sendable(out[k].msg) && Intact(out[k].msg)
  }

  /** The longest TCP payload of an IPv4 packet. */
  const MAX_PAYLOAD := 0xFFFF - 40

  predicate Real(e: Event) { e.Arrive? ==> |e.p.payload| <= MAX_PAYLOAD }

  lemma {:induction false} DataSpeaks(c: Conn, left: seq<byte>, sid: u16)
    ensures Speaks(ConnData(c, left).1, sid)
    decreases |left|
  {
    if left != [] {
      DataSpeaks(Sent(c, Take(left)), left[Take(left)..], sid);
    }
  }

  lemma ArriveSpeaks(c: Conn, p: TcpPacket)
    requires |p.payload| <= MAX_PAYLOAD
    ensures Speaks(ConnArrive(c, p).1, c.streamId)
  {
  }

  lemma ConnSpeaks(i: nat, c: Conn, e: Event)
    requires !e.Sweep? && !IsSyn(e) && Real(e)
    ensures Speaks(ConnStep(i, c, e).1, c.streamId)
  {
    match e
    case Arrive(p) => ArriveSpeaks(c, p);
    case OnData(_, data) => DataSpeaks(c, data, c.streamId);
    case _ =>
  }

  lemma {:induction false} SweepQuiet(t: Tun, n: nat)
    requires Sized(t) && n <= MAX_TCP_CONNS
    ensures Quiet(SweepOuts(t, n))
  {
    if n > 0 {
      SweepQuiet(t, n - 1);
    }
  }

  lemma {:induction false} OtherStream(out: seq<Out>, sid: u16, other: u16)
    requires Speaks(out, sid) && sid != other
    ensures DataOf(out, other) == []
  {
    if out != [] {
      OtherStream(out[1..], sid, other);
    }
  }

  // ----- one event of the shim -----

  lemma OfferSegment(s: E.Side, far: Far, sid: u16, out: seq<Out>, answers: seq<SQ.Answer>, k: nat)
    requires out != [] && out[0].ToTun?
    ensures Offer(s, far, sid, out, answers, k) == Offer(s, far, sid, out[1..], answers, k)
    ensures DataOf(out, sid) == DataOf(out[1..], sid)
  {
    assert [] + DataOf(out[1..], sid) == DataOf(out[1..], sid);
  }

  lemma OfferMessage(s: E.Side, far: Far, sid: u16, out: seq<Out>, answers: seq<SQ.Answer>, k: nat)
    requires out != [] && out[0].ToMux?
    ensures var m, rc := out[0].msg, SQ.AnswerAt(answers, k);
            && Offer(s, far, sid, out, answers, k)
               == Offer(E.StepSide(s, E.Send(m, rc)), Offered(s, far, sid, m, rc), sid, out[1..],
                        answers, k + 1)
            && DataOf(out, sid) == (if m.TcpData? && m.sid == sid then m.data else []) + DataOf(out[1..], sid)
  {
  }

  lemma Append3<T>(a: seq<T>, b: seq<T>, c: seq<T>)
    ensures a + b + c == a + (b + c) && a + [] == a
  {
  }

  lemma {:induction false} OffersAccount(s: E.Side, far: Far, sid: u16, forwarded: seq<byte>, out: seq<Out>,
                                         answers: seq<SQ.Answer>, k: nat)
    requires LinkInv(s) && Accounts(StreamBytes(s.msgs, sid), far, forwarded) && Quiet(out) && sid != 0
    ensures var (s', far') := Offer(s, far, sid, out, answers, k);
            LinkInv(s') && Accounts(StreamBytes(s'.msgs, sid), far', forwarded + DataOf(out, sid))
    decreases |out|
  {
    Append3(forwarded, [], []);
    if out == [] {
    } else if out[0].ToTun? {
      OfferSegment(s, far, sid, out, answers, k);
      OffersAccount(s, far, sid, forwarded, out[1..], answers, k);
    } else {
      var m, rc := out[0].msg, SQ.AnswerAt(answers, k);
      var data := if m.TcpData? && m.sid == sid then m.data else [];
      SendAccounts(s, far, sid, forwarded, m, rc);
      OfferMessage(s, far, sid, out, answers, k);
      OffersAccount(E.StepSide(s, E.Send(m, rc)), Offered(s, far, sid, m, rc), sid,
                    forwarded + data, out[1..], answers, k + 1);
      Append3(forwarded, data, DataOf(out[1..], sid));
    }
  }

  /** What an event writes, for slot i: its TCP_DATA extends the tenancy's, unless it opens the slot. */
  lemma EventForwards(w: World, e: Event, i: nat)
    requires Inv(w) && i < MAX_TCP_CONNS && Real(e) && !IsSyn(e)
    ensures var out := Step(w.tun, e).out;
            Quiet(out) && StepWorld(w, e).ten[i].forwarded == w.ten[i].forwarded + DataOf(out, Sid(i))
  {
    var out := Step(w.tun, e).out;
    assert w.ten[i].forwarded + [] == w.ten[i].forwarded;
    if e.Sweep? {
      SweepWrites(w.tun, |w.tun.conns|);
      SweepQuiet(w.tun, |w.tun.conns|);
      assert SawSweep(w.ten[i]).forwarded == w.ten[i].forwarded;
    } else if Who(w.tun, e).Some? {
      var j := Who(w.tun, e).value;
      WhoIsLive(w, e, j);
      assert SlotInv(j, w.tun.conns[j], w.tun.age[j], w.ten[j]);
      ConnSpeaks(j, w.tun.conns[j], e);
      if j != i {
        SidValue(i);
        SidValue(j);
        OtherStream(out, Sid(j), Sid(i));
      }
    }
  }

  lemma SynOut(w: World, e: Event)
    requires Sized(w.tun) && IsSyn(e)
    ensures var out := Step(w.tun, e).out;
            match Who(w.tun, e)
            case None => out == []
            case Some(j) =>
              && out == [ToMux(TcpOpen(Sid(j), Endpoint(ADDR_TYPE_IPV4, e.p.dstPort, e.p.dstIp)))]
              && Sendable(out[0].msg) && Intact(out[0].msg) && DataOf(out, Sid(j)) == []
  {
    var i := Who(w.tun, e);
    if i.Some? {
      OnlyFrame(TcpOpen(Sid(i.value), Endpoint(ADDR_TYPE_IPV4, e.p.dstPort, e.p.dstIp)), Sid(i.value));
    }
  }

  lemma OfferOne(s: E.Side, far: Far, sid: u16, m: Message, answers: seq<SQ.Answer>)
    ensures var rc := SQ.AnswerAt(answers, 0);
            Offer(s, far, sid, [ToMux(m)], answers, 0)
            == (E.StepSide(s, E.Send(m, rc)), Offered(s, far, sid, m, rc))
  {
    assert [ToMux(m)][1..] == [];
  }

  lemma SynForwards(w: World, e: Event, i: nat)
    requires Inv(w) && i < MAX_TCP_CONNS && IsSyn(e)
    ensures StepWorld(w, e).ten[i].forwarded == if Who(w.tun, e) == Some(i) then [] else w.ten[i].forwarded
  {
    SynOut(w, e);
  }

  lemma SynKeeps(y: Sys, i: nat, e: Event, answers: seq<SQ.Answer>)
    requires i < MAX_TCP_CONNS && SysInv(y, i) && IsSyn(e)
    ensures SysInv(StepSys(y, i, Shim(e, answers)), i)
  {
    StepKeeps(y.w, e);
    SynOut(y.w, e);
    SynForwards(y.w, e, i);
    if Who(y.w.tun, e).Some? {
      var m := Step(y.w.tun, e).out[0].msg;
      SidValue(i);
      SidValue(Who(y.w.tun, e).value);
      OfferOne(y.s, y.far, Sid(i), m, answers);
      SendAccounts(y.s, y.far, Sid(i), y.w.ten[i].forwarded, m, SQ.AnswerAt(answers, 0));
    }
  }

  lemma ShimKeeps(y: Sys, i: nat, e: Event, answers: seq<SQ.Answer>)
    requires i < MAX_TCP_CONNS && SysInv(y, i) && Real(e)
    ensures SysInv(StepSys(y, i, Shim(e, answers)), i)
  {
    if IsSyn(e) {
      SynKeeps(y, i, e, answers);
    } else {
      StepKeeps(y.w, e);
      EventForwards(y.w, e, i);
      SidValue(i);
      OffersAccount(y.s, y.far, Sid(i), y.w.ten[i].forwarded, Step(y.w.tun, e).out, answers, 0);
    }
  }

  // ----- the rest of the link -----

  /** What others send is not on slot i's stream and fits rfcomm_send's length. */
  predicate Foreign(op: E.Op, i: nat) { op.Send? ==> StreamOf(op.m) != Sid(i) && Intact(op.m) }

  function MessageOf(op: E.Op): Message { if op.Send? then op.m else Hello(OUR_HELLO) }

  lemma LinkNotes(s: E.Side, op: E.Op)
    requires LinkInv(s) && Intact(MessageOf(op))
    ensures var s' := E.StepSide(s, op);
            LinkInv(s') && (s'.msgs == s.msgs || s'.msgs == s.msgs + [MessageOf(op)])
  {
    E.StepKeeps(s, op);
  }

  lemma LinkKeeps(y: Sys, i: nat, op: E.Op)
    requires i < MAX_TCP_CONNS && SysInv(y, i) && Foreign(op, i)
    ensures SysInv(StepSys(y, i, Link(op)), i)
  {
    SidValue(i);
    LinkNotes(y.s, op);
    var bytes := StreamBytes(y.s.msgs, Sid(i));
    StreamBytesSnoc(y.s.msgs, MessageOf(op), Sid(i));
    assert bytes + [] == bytes;
  }

  predicate Allowed(a: Act, i: nat) { if a.Shim? then Real(a.e) else Foreign(a.op, i) }

  lemma StepSysKeeps(y: Sys, i: nat, a: Act)
    requires i < MAX_TCP_CONNS && SysInv(y, i) && Allowed(a, i)
    ensures SysInv(StepSys(y, i, a), i)
  {
    if a.Shim? {
      ShimKeeps(y, i, a.e, a.answers);
    } else {
      LinkKeeps(y, i, a.op);
    }
  }

  lemma {:induction false} RunSysKeeps(y: Sys, i: nat, acts: seq<Act>)
    requires i < MAX_TCP_CONNS && SysInv(y, i) && forall a <- acts :: Allowed(a, i)
    ensures SysInv(RunSys(y, i, acts), i)
    decreases |acts|
  {
    if acts != [] {
      var a := acts[0];
      assert Allowed(a, i);
      StepSysKeeps(y, i, a);
      RunSysKeeps(StepSys(y, i, a), i, acts[1..]);
    }
  }

  // ----- the far end -----

  /** No close, and no code but 0 and the back-pressure ones from a drain. */
  predicate Lossless(a: Act) { a.Link? ==> E.Lossless(a.op) }

  lemma OfferSendsAll(s: E.Side, far: Far, sid: u16, out: seq<Out>, answers: seq<SQ.Answer>, k: nat)
    requires SQ.AllSent(s.q.fates)
    ensures SQ.AllSent(Offer(s, far, sid, out, answers, k).0.q.fates)
    decreases |out|
  {
    if out != [] {
      if out[0].ToTun? {
        OfferSendsAll(s, far, sid, out[1..], answers, k);
      } else {
        var rc := SQ.AnswerAt(answers, k);
        OfferSendsAll(E.StepSide(s, E.Send(out[0].msg, rc)), Offered(s, far, sid, out[0].msg, rc), sid, out[1..],
                      answers, k + 1);
      }
    }
  }

  lemma {:induction false} RunSysSendsAll(y: Sys, i: nat, acts: seq<Act>)
    requires Sized(y.w.tun) && |y.w.ten| == MAX_TCP_CONNS
    requires SQ.AllSent(y.s.q.fates) && forall a <- acts :: Lossless(a)
    ensures SQ.AllSent(RunSys(y, i, acts).s.q.fates)
    decreases |acts|
  {
    if acts != [] {
      var a := acts[0];
      assert a in acts;
      if a.Shim? {
        OfferSendsAll(y.s, y.far, Sid(i), Step(y.w.tun, a.e).out, a.answers, 0);
      } else {
        E.OpSendsAll(y.s, a.op);
      }
      RunSysSendsAll(StepSys(y, i, a), i, acts[1..]);
    }
  }

  /** What the far end has been sent of slot i's stream, in a state of the system: the frames of msgs to a
      clean end, the others still being queued. Unless an OPEN of this stream is among the queued ones,
      the stream's bytes begin those accepted, and are all of them once nothing is queued. */
  ghost predicate Heard(y: Sys, i: nat, msgs: seq<Message>) {
    && msgs <= y.s.msgs && |y.s.msgs| - |msgs| == |y.s.q.frames| && (forall m <- msgs :: Sendable(m))
    && KotlinFrame.ReadAll(Concat(y.s.q.wire)) == (KotlinFrame.RawAll(msgs), true)
    && (!Opens(y.s.msgs[|msgs|..], Sid(i)) ==> StreamBytes(msgs, Sid(i)) <= y.far.stale + y.far.got)
    && (y.s.q.frames == [] ==> StreamBytes(msgs, Sid(i)) == y.far.stale + y.far.got)
  }

  /** The bytes of a stream in a prefix of the messages, when the rest does not open it anew. */
  lemma StreamOfPrefix(ms: seq<Message>, n: nat, sid: u16)
    requires n <= |ms| && !Opens(ms[n..], sid)
    ensures StreamBytes(ms[..n], sid) <= StreamBytes(ms, sid)
    ensures n == |ms| ==> StreamBytes(ms[..n], sid) == StreamBytes(ms, sid)
  {
    StreamGrows(ms[..n], ms[n..], sid);
    assert ms[..n] + ms[n..] == ms;
    assert n == |ms| ==> ms[..n] == ms;
  }

  lemma ReadWhole(s: E.Side)
    requires LinkInv(s) && SQ.AllSent(s.q.fates)
    ensures |s.q.fates| <= |s.msgs| && |s.msgs| - |s.q.fates| == |s.q.frames|
    ensures var msgs := s.msgs[..|s.q.fates|];
            && (forall m <- msgs :: Sendable(m))
            && KotlinFrame.ReadAll(Concat(s.q.wire)) == (KotlinFrame.RawAll(msgs), true)
  {
    E.QueuedFramed(s);
    E.WireIsWireOf(s);
    E.AllSentDelivers(s.msgs[..|s.q.fates|], s.q.fates);
    KotlinReadsExactly(s.msgs[..|s.q.fates|]);
  }

  lemma HeardWhole(y: Sys, i: nat)
    requires i < MAX_TCP_CONNS && SysInv(y, i) && SQ.AllSent(y.s.q.fates)
    ensures |y.s.q.fates| <= |y.s.msgs| && Heard(y, i, y.s.msgs[..|y.s.q.fates|])
  {
    var n := |y.s.q.fates|;
    ReadWhole(y.s);
    if !Opens(y.s.msgs[n..], Sid(i)) {
      StreamOfPrefix(y.s.msgs, n, Sid(i));
    }
    assert |y.s.msgs[..n]| == n;
  }

  /** The stream has what was accepted of this tenancy behind what it inherited, which is nothing if the
      tenancy's OPEN was accepted. The bytes the shim has taken from the local end are those accepted
      exactly if none was refused, each is one or the other, and on in-order runs the shim has
      acknowledged them all alike. */
  ghost predicate Balanced(y: Sys, i: nat)
    requires Sized(y.w.tun) && |y.w.ten| == MAX_TCP_CONNS && i < MAX_TCP_CONNS
  {
    var h := y.w.ten[i];
    && StreamBytes(y.s.msgs, Sid(i)) == y.far.stale + y.far.got
    && (y.far.open ==> y.far.stale == [])
    && (y.far.got == h.fromPeer <==> y.far.lost == 0)
    && |y.far.got| + y.far.lost == |h.fromPeer|
    && (Live(h) && h.inOrder ==>
          y.w.tun.conns[i].peerSeqNext == Add32(h.synSeq, 1 + |y.far.got| + y.far.lost + h.fins))
  }

  lemma Accounted(y: Sys, i: nat)
    requires i < MAX_TCP_CONNS && SysInv(y, i)
    ensures Balanced(y, i)
  {
    assert SlotInv(i, y.w.tun.conns[i], y.w.tun.age[i], y.w.ten[i]);
  }

  lemma BootInv(i: nat)
    requires i < MAX_TCP_CONNS
    ensures SysInv(BOOT, i) && SQ.AllSent(BOOT.s.q.fates)
  {
    StartInv();
  }

  /** The shim end to end, over every interleaving of its events, what others send, can-send-now events and
      opens, with any answers: the far end reads the messages sent so far to a clean end; a slot's stream is
      what was accepted of the tenancy, behind whatever the stream had when the tenancy's OPEN was refused;
      unless an OPEN is still queued the far end has a first part of it, and all once the queue is empty;
      and what was accepted is what the shim took, and acknowledged, exactly if no TCP_DATA of the tenancy
      was refused: refused bytes are lost for good. */
  lemma FarEndHears(i: nat, acts: seq<Act>)
    requires i < MAX_TCP_CONNS && forall a <- acts :: Allowed(a, i) && Lossless(a)
    ensures var y := RunSys(BOOT, i, acts);
            && |y.s.q.fates| <= |y.s.msgs| && Heard(y, i, y.s.msgs[..|y.s.q.fates|])
            && Balanced(y, i)
  {
    BootInv(i);
    RunHears(BOOT, i, acts);
  }

  lemma RunHears(y: Sys, i: nat, acts: seq<Act>)
    requires i < MAX_TCP_CONNS && SysInv(y, i) && SQ.AllSent(y.s.q.fates)
    requires forall a <- acts :: Allowed(a, i) && Lossless(a)
    ensures var y' := RunSys(y, i, acts);
            |y'.s.q.fates| <= |y'.s.msgs| && Heard(y', i, y'.s.msgs[..|y'.s.q.fates|]) && Balanced(y', i)
  {
    RunSysKeeps(y, i, acts);
    RunSysSendsAll(y, i, acts);
    HeardWhole(RunSys(y, i, acts), i);
    Accounted(RunSys(y, i, acts), i);
  }
}
