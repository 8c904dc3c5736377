/** The senders of one side, its send queue and channel, and a second session at the far end. */
module EndToEnd {
  import opened Bytes
  import opened Frame
  import opened MuxSpec
  import opened MuxFeed
  import opened MuxSession
  import opened LongFrames
  import KotlinFrame
  import SQ = SendQueueSpec

  /** One event at the sending side; rc and answers are rfcomm_send's answers. */
  datatype Op =
    | Send(m: Message, rc: SQ.Answer)
    | CanSendNow(answers: seq<SQ.Answer>)
    | Opened(status: byte, cid: u16, rc: SQ.Answer)
    | Closed

  /** The queue, and the messages whose senders returned 0. */
  datatype Side = Side(q: SQ.Queue, msgs: seq<Message>)

  const START := Side(SQ.IDLE, [])

  /** The side after a sender of m left queue q and returned r. */
  function Noted(s: Side, m: Message, q: SQ.Queue, r: int): Side { Side(q, if r == 0 then s.msgs + [m] else s.msgs) }

  function StepSide(s: Side, op: Op): Side {
    match op
    case Send(m, rc) =>
      var (q, r) := SendStep(s.q, m, rc);
      Noted(s, m, q, r)
    case CanSendNow(answers) => s.(q := SQ.Step(s.q, SQ.CanSendNow(answers)))
    case Opened(status, cid, rc) =>
      var (q, r) := OpenStep(s.q, status, cid, rc);
      Noted(s, Hello(OUR_HELLO), q, r)
    case Closed => s.(q := SQ.Step(s.q, SQ.Closed))
  }

  function RunSide(s: Side, ops: seq<Op>): Side
    decreases |ops|
  {
    if ops == [] then s else RunSide(StepSide(s, ops[0]), ops[1..])
  }

  /** The messages with fate Sent, in order. */
  function SentMsgs(ms: seq<Message>, fates: seq<SQ.Fate>): seq<Message>
    requires |ms| == |fates|
  {
    if ms == [] then []
    else (if fates[0] == SQ.Sent then [ms[0]] else []) + SentMsgs(ms[1..], fates[1..])
  }

  /** The accepted frames are the frames of the accepted messages. */
  ghost predicate Framed(frames: seq<seq<byte>>, ms: seq<Message>) {
    && |frames| == |ms|
    && forall i | 0 <= i < |ms| :: Sendable(ms[i]) && frames[i] == Encode(ms[i])
  }

  ghost predicate SideInv(s: Side) {
    SQ.Fifo(s.q) && Framed(s.q.accepted, s.msgs)
  }

  lemma SendKeeps(s: Side, m: Message, rc: SQ.Answer)
    requires SideInv(s)
    ensures var (q, r) := SendStep(s.q, m, rc); SideInv(Noted(s, m, q, r))
  {
    if Sendable(m) {
      SQ.AcceptKeepsFifo(s.q, Encode(m), rc);
    }
  }

  lemma StepKeeps(s: Side, op: Op)
    requires SideInv(s)
    ensures SideInv(StepSide(s, op))
  {
    match op
    case Send(m, rc) => SendKeeps(s, m, rc);
    case CanSendNow(answers) => SQ.DrainKeepsFifo(s.q.(requested := false, asked := 0), answers, 0);
    case Opened(status, cid, rc) =>
      SQ.StepKeepsFifo(s.q, SQ.Opened(status, cid));
      SendKeeps(s.(q := SQ.Step(s.q, SQ.Opened(status, cid))), Hello(OUR_HELLO), rc);
    case Closed => SQ.StepKeepsFifo(s.q, SQ.Closed);
  }

  lemma {:induction false} RunKeeps(s: Side, ops: seq<Op>)
    requires SideInv(s)
    ensures SideInv(RunSide(s, ops))
    decreases |ops|
  {
    if ops != [] {
      StepKeeps(s, ops[0]);
      RunKeeps(StepSide(s, ops[0]), ops[1..]);
    }
  }

  /** What RFCOMM got is what the sent messages look like on the wire. */
  lemma {:induction false} WireIsSent(frames: seq<seq<byte>>, ms: seq<Message>, fates: seq<SQ.Fate>)
    requires Framed(frames, ms) && |ms| == |fates|
    ensures forall m <- SentMsgs(ms, fates) :: Sendable(m)
    ensures Concat(SQ.SentOf(frames, fates)) == WireOf(SentMsgs(ms, fates))
  {
    if ms != [] {
      WireIsSent(frames[1..], ms[1..], fates[1..]);
      if fates[0] == SQ.Sent {
        assert SQ.SentOf(frames, fates) == [SQ.Cast16(Encode(ms[0]))] + SQ.SentOf(frames[1..], fates[1..]);
        assert SentMsgs(ms, fates) == [ms[0]] + SentMsgs(ms[1..], fates[1..]);
      } else {
        assert SQ.SentOf(frames, fates) == SQ.SentOf(frames[1..], fates[1..]);
        assert SentMsgs(ms, fates) == SentMsgs(ms[1..], fates[1..]);
      }
    }
  }

  /** What a run has got through to RFCOMM. */
  function GotThrough(s: Side): seq<Message>
    requires |s.q.fates| <= |s.msgs|
  {
    SentMsgs(s.msgs[..|s.q.fates|], s.q.fates)
  }

  /** The messages a run has got through to RFCOMM that this receiver has to report. */
  function Due(s: Side): seq<Message>
    requires |s.q.fates| <= |s.msgs|
  {
    GotThrough(s)[..ReceivablePrefix(GotThrough(s))]
  }

  /** f reports exactly due of what was sent, with a protocol error exactly if that is not all, and
      without one nothing is left over. */
  predicate Reported(f: Fed, due: seq<Message>, sent: seq<Message>) {
    && f.msgs == due && (f.violation.None? <==> due == sent) && (f.violation.None? ==> f.pending == [])
  }

  /** A receiver that has reported f has got exactly the sent messages, up to the first
      client-to-server one, and nothing is left over; the frames still queued are those of the
      remaining accepted messages. */
  ghost predicate Arrived(s: Side, f: Fed) {
    && |s.q.fates| <= |s.msgs|
    && Framed(s.q.frames, s.msgs[|s.q.fates|..])
    && Reported(f, Due(s), GotThrough(s))
  }

  /** The receiver stopped where the frame of the first message it does not report begins, or at the end. */
  ghost predicate InStep(s: Side, p: Parsed) {
    && |s.q.fates| <= |s.msgs| && (forall m <- GotThrough(s) :: Sendable(m))
    && p.rest == WireOf(GotThrough(s)[ReceivablePrefix(GotThrough(s))..])
  }

  /** End to end, over every run of sends, drains with arbitrary answers, opens and closes: the
      bytes RFCOMM accepted, fed to a session in chunks of any size, are reported as exactly the
      sent messages, in acceptance order and in step, exactly if each of those to be reported went out
      whole. If all that was sent is to be reported, being in step need not be said. */
  lemma EndToEnd(ops: seq<Op>, chunks: seq<seq<byte>>)
    requires Concat(chunks) == Concat(RunSide(START, ops).q.wire)
    ensures var s := RunSide(START, ops);
            var f := FeedAll([], chunks);
            && |s.q.fates| <= |s.msgs|
            && (Arrived(s, f) && InStep(s, Parse(Concat(chunks))) <==> forall m <- Due(s) :: Intact(m))
            && (Due(s) == GotThrough(s) ==> (Arrived(s, f) <==> forall m <- Due(s) :: Intact(m)))
  {
    RunKeeps(START, ops);
    WireIsWireOf(RunSide(START, ops));
    ArrivesExactly(RunSide(START, ops), Concat(chunks), FeedWhole(Concat(chunks)));
    ChunkingIrrelevant([], chunks);
    assert [] + Concat(chunks) == Concat(chunks);
  }

  lemma ArrivesExactly(s: Side, w: seq<byte>, f: Fed)
    requires SideInv(s) && (forall m <- GotThrough(s) :: Sendable(m)) && w == WireOf(GotThrough(s)) && f == FeedWhole(w)
    ensures Arrived(s, f) && InStep(s, Parse(w)) <==> forall m <- Due(s) :: Intact(m)
    ensures Due(s) == GotThrough(s) ==> (Arrived(s, f) <==> forall m <- Due(s) :: Intact(m))
  {
    QueuedFramed(s);
    FedExactly(GotThrough(s));
  }

  lemma QueuedFramed(s: Side)
    requires SideInv(s)
    ensures |s.q.fates| <= |s.msgs| && Framed(s.q.frames, s.msgs[|s.q.fates|..])
  {
  }

  lemma WireIsWireOf(s: Side)
    requires SideInv(s)
    ensures (forall m <- GotThrough(s) :: Sendable(m)) && Concat(s.q.wire) == WireOf(GotThrough(s))
  {
    var k := |s.q.fates|;
    WireIsSent(s.q.accepted[..k], s.msgs[..k], s.q.fates);
  }

  lemma FedExactly(sent: seq<Message>)
    requires forall m <- sent :: Sendable(m)
    ensures var n := ReceivablePrefix(sent);
            var f := FeedWhole(WireOf(sent));
            && (Reported(f, sent[..n], sent) && Parse(WireOf(sent)).rest == WireOf(sent[n..])
                <==> forall m <- sent[..n] :: Intact(m))
            && (sent[..n] == sent ==> (Reported(f, sent[..n], sent) <==> forall m <- sent[..n] :: Intact(m)))
  {
    var n := ReceivablePrefix(sent);
    ReceivedExactly(sent);
    assert n == |sent| <==> sent[..n] == sent;
    assert n == |sent| ==> WireOf(sent[n..]) == [];
  }

  /** The same at the real far end, whose reader takes every kind: on every run the Kotlin codec reads
      exactly the sent messages' frames, in order and to a clean end, exactly if all of them went out
      whole. */
  lemma EndToEndKotlin(ops: seq<Op>)
    ensures var s := RunSide(START, ops);
            && |s.q.fates| <= |s.msgs| && (forall m <- GotThrough(s) :: Sendable(m))
            && (KotlinFrame.ReadAll(Concat(s.q.wire)) == (KotlinFrame.RawAll(GotThrough(s)), true)
                <==> forall m <- GotThrough(s) :: Intact(m))
  {
    RunKeeps(START, ops);
    WireIsWireOf(RunSide(START, ops));
    KotlinReadsExactly(GotThrough(RunSide(START, ops)));
  }

  /** No close and no code but 0 and the back-pressure ones from a drain. */
  predicate Lossless(op: Op) {
    !op.Closed? && (op.CanSendNow? ==> SQ.Failed !in op.answers)
  }

  lemma OpSendsAll(s: Side, op: Op)
    requires SQ.AllSent(s.q.fates) && Lossless(op)
    ensures SQ.AllSent(StepSide(s, op).q.fates)
  {
    if op.CanSendNow? {
      SQ.DrainSendsAll(s.q.(requested := false, asked := 0), op.answers, 0);
    }
  }

  lemma {:induction false} RunSendsAll(s: Side, ops: seq<Op>)
    requires SQ.AllSent(s.q.fates) && forall op <- ops :: Lossless(op)
    ensures SQ.AllSent(RunSide(s, ops).q.fates)
    decreases |ops|
  {
    if ops != [] {
      assert ops[0] in ops;
      OpSendsAll(s, ops[0]);
      RunSendsAll(StepSide(s, ops[0]), ops[1..]);
    }
  }

  lemma {:induction false} AllSentDelivers(ms: seq<Message>, fates: seq<SQ.Fate>)
    requires |ms| == |fates| && SQ.AllSent(fates)
    ensures SentMsgs(ms, fates) == ms
  {
    if ms != [] {
      AllSentDelivers(ms[1..], fates[1..]);
    }
  }

  /** On lossless runs what has got through is what was accepted and is no longer queued. The receiver
      reports it up to the first client-to-server message, in step, exactly if that part went out whole;
      all of it, without a protocol error and a rest, if it has no such message. */
  lemma LosslessPrefix(ops: seq<Op>, chunks: seq<seq<byte>>)
    requires forall op <- ops :: Lossless(op)
    requires Concat(chunks) == Concat(RunSide(START, ops).q.wire)
    ensures var s := RunSide(START, ops);
            var f := FeedAll([], chunks);
            && |s.q.frames| <= |s.msgs| && |s.q.fates| == |s.msgs| - |s.q.frames|
            && GotThrough(s) == s.msgs[..|s.q.fates|] && Framed(s.q.frames, s.msgs[|s.q.fates|..])
            && (Arrived(s, f) && InStep(s, Parse(Concat(chunks))) <==> forall m <- Due(s) :: Intact(m))
            && (Due(s) == GotThrough(s) ==>
                  (f == Fed(s.msgs[..|s.q.fates|], None, []) <==> forall m <- Due(s) :: Intact(m)))
  {
    EndToEnd(ops, chunks);
    RunKeeps(START, ops);
    RunSendsAll(START, ops);
    AllThrough(RunSide(START, ops));
  }

  /** A can-send-now event whose sends are all accepted gets everything accepted through. */
  lemma DrainDelivers(s: Side, answers: seq<SQ.Answer>)
    requires SideInv(s) && SQ.AllSent(s.q.fates) && SQ.Failed !in answers
    requires forall k | 0 <= k < |s.q.frames| :: SQ.AnswerAt(answers, k) == SQ.Accepted
    ensures var s' := StepSide(s, CanSendNow(answers));
            s'.q.frames == [] && s'.msgs == s.msgs && |s'.q.fates| == |s'.msgs| && GotThrough(s') == s.msgs
  {
    StepKeeps(s, CanSendNow(answers));
    OpSendsAll(s, CanSendNow(answers));
    SQ.DrainEmpties(s.q.(requested := false, asked := 0), answers, 0);
    var s' := StepSide(s, CanSendNow(answers));
    AllThrough(s');
    assert s'.msgs[..|s'.msgs|] == s'.msgs;
  }

  lemma AllThrough(s: Side)
    requires SideInv(s) && SQ.AllSent(s.q.fates)
    ensures |s.q.frames| <= |s.msgs| && |s.q.fates| == |s.msgs| - |s.q.frames|
    ensures GotThrough(s) == s.msgs[..|s.q.fates|] && Framed(s.q.frames, s.msgs[|s.q.fates|..])
  {
    AllSentDelivers(s.msgs[..|s.q.fates|], s.q.fates);
  }
}
