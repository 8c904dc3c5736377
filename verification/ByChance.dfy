/** Why end-to-end delivery has to say that the receiver stays in step: a run on which a cut frame
    arrives all the same. */
module ByChance {
  import opened Bytes
  import opened Frame
  import opened MuxSpec
  import opened MuxFeed
  import opened MuxSession
  import opened LongFrames
  import opened EndToEnd
  import SQ = SendQueueSpec

  /** A TCP_OPEN whose stream id is the length field of the frame below, and a data block to follow it. */
  predicate Decoy(open: Message, filler: Message) {
    && open.TcpOpen? && open.sid == 0xFFFC && |open.dst.addr| == 4
    && filler.TcpData? && |filler.data| == 65516
  }

  /** A frame of 65532 payload bytes that spells out the two frames to be sent after it. */
  function Foretold(open: Message, filler: Message): (m: Message)
    requires Decoy(open, filler)
    ensures Sendable(m) && !Intact(m) && Receivable(m)
  {
    TcpData(TYPE_TCP_OPEN, Encode(open)[4..] + Encode(filler))
  }

  /** Only two bytes of it go out, but with the two frames that follow they make it up again. */
  lemma MadeUp(open: Message, filler: Message)
    requires Decoy(open, filler)
    ensures var m := Foretold(open, filler);
            SQ.Cast16(Encode(m)) + (SQ.Cast16(Encode(open)) + SQ.Cast16(Encode(filler))) == Encode(m)
  {
    var o, f, l := Encode(open), Encode(filler), Encode(Foretold(open, filler));
    IntactExactly(open);
    IntactExactly(filler);
    DecoyFrame(open, filler);
    FrameHead(TYPE_TCP_DATA, TYPE_TCP_OPEN, o[4..] + f);
    Rejoin(l, o, f);
  }

  lemma DecoyFrame(open: Message, filler: Message)
    requires Decoy(open, filler)
    ensures var o, l := Encode(open), Encode(Foretold(open, filler));
            && |o| == 14 && |Encode(filler)| == 65522
            && l == FrameOf(TYPE_TCP_DATA, TYPE_TCP_OPEN, o[4..] + Encode(filler))
            && o[..2] == [PROTO_VERSION, TYPE_TCP_OPEN] && o[2..4] == [0xFF, 0xFC]
  {
    FrameHead(TYPE_TCP_OPEN, 0xFFFC, PayloadBytes(open));
  }

  lemma FrameHead(kind: byte, sid: u16, payload: seq<byte>)
    requires |payload| <= FRAME_MAX_PAYLOAD
    ensures var f, n := FrameOf(kind, sid, payload), |payload|;
            && f[..2] == [PROTO_VERSION, kind] && f[2..4] == [sid / 0x100, sid % 0x100]
            && f[4..6] == [n / 0x100, n % 0x100] && f[6..] == payload
  {
  }

  lemma Rejoin(l: seq<byte>, o: seq<byte>, f: seq<byte>)
    requires |l| == 0x1_0002 && |o| >= 4 && l[2..4] == o[..2] && l[4..6] == o[2..4] && l[6..] == o[4..] + f
    ensures SQ.Cast16(l) + (o + f) == l
  {
    assert |l| % 0x1_0000 == 2;
    assert l == l[..2] + l[2..4] + l[4..6] + l[6..];
  }

  /** Sends that RFCOMM accepts one after the other. */
  function SendAll(ms: seq<Message>): (ops: seq<Op>)
    ensures |ops| == |ms|
  {
    if ms == [] then [] else [Send(ms[0], SQ.Accepted)] + SendAll(ms[1..])
  }

  /** An open channel on which everything so far went through. */
  ghost predicate Clear(s: Side) {
    SideInv(s) && s.q.cid != 0 && s.q.frames == [] && SQ.AllSent(s.q.fates)
  }

  lemma SendsOne(s: Side, m: Message)
    requires Clear(s) && Sendable(m)
    ensures var s' := StepSide(s, Send(m, SQ.Accepted)); Clear(s') && s'.msgs == s.msgs + [m]
  {
    SendKeeps(s, m, SQ.Accepted);
  }

  /** Any list of sendable messages is got through by sending it on such a channel. */
  lemma {:induction false} SendAllSends(s: Side, ms: seq<Message>)
    requires Clear(s) && forall m <- ms :: Sendable(m)
    ensures var s' := RunSide(s, SendAll(ms)); Clear(s') && s'.msgs == s.msgs + ms
    decreases |ms|
  {
    if ms != [] {
      var s' := StepSide(s, Send(ms[0], SQ.Accepted));
      SendsOne(s, ms[0]);
      SendAllSends(s', ms[1..]);
      RunFirst(s, Send(ms[0], SQ.Accepted), SendAll(ms[1..]));
      AppendHead(s.msgs, ms);
    }
  }

  lemma RunFirst(s: Side, op: Op, ops: seq<Op>)
    ensures RunSide(s, [op] + ops) == RunSide(StepSide(s, op), ops)
  {
    assert ([op] + ops)[1..] == ops;
  }

  lemma AppendHead<T>(a: seq<T>, b: seq<T>)
    requires b != []
    ensures a + [b[0]] + b[1..] == a + b
  {
  }

  /** A greeting, the foretold frame, the two it foretells, and one more TCP_OPEN. */
  function Unlucky(h: Message, open: Message, filler: Message): seq<Message>
    requires Decoy(open, filler)
  {
    [h] + ([Foretold(open, filler)] + Decoys(open, filler))
  }

  function Decoys(open: Message, filler: Message): seq<Message> { [open] + ([filler] + [open]) }

  lemma WireCons(m: Message, ms: seq<Message>)
    requires Sendable(m) && forall x <- ms :: Sendable(x)
    ensures (forall x <- [m] + ms :: Sendable(x)) && WireOf([m] + ms) == SQ.Cast16(Encode(m)) + WireOf(ms)
  {
    assert ([m] + ms)[1..] == ms;
  }

  lemma PrefixCons(m: Message, ms: seq<Message>)
    ensures ReceivablePrefix([m] + ms) == if Receivable(m) then 1 + ReceivablePrefix(ms) else 0
  {
    assert ([m] + ms)[1..] == ms;
  }

  lemma DecoysWire(open: Message, filler: Message)
    requires Decoy(open, filler)
    ensures WireOf(Decoys(open, filler))
         == SQ.Cast16(Encode(open)) + (SQ.Cast16(Encode(filler)) + WireOf([open]))
  {
    WireCons(filler, [open]);
    WireCons(open, [filler] + [open]);
  }

  /** On the wire these are the frames of the greeting, the foretold message and the last TCP_OPEN. */
  lemma UnluckyWire(h: Message, open: Message, filler: Message)
    requires Decoy(open, filler) && Sendable(h) && Intact(h)
    ensures (forall x <- Unlucky(h, open, filler) :: Sendable(x))
    ensures WireOf(Unlucky(h, open, filler)) == Encode(h) + (Encode(Foretold(open, filler)) + WireOf([open]))
  {
    var m := Foretold(open, filler);
    WireCons(m, Decoys(open, filler));
    WireCons(h, [m] + Decoys(open, filler));
    IntactExactly(h);
    DecoysWire(open, filler);
    MadeUp(open, filler);
    Regroup(SQ.Cast16(Encode(m)), SQ.Cast16(Encode(open)), SQ.Cast16(Encode(filler)), WireOf([open]));
  }

  lemma Regroup(a: seq<byte>, b: seq<byte>, c: seq<byte>, d: seq<byte>)
    ensures a + (b + (c + d)) == (a + (b + c)) + d
  {
  }

  lemma ParseTwo(h: Message, m: Message, tail: seq<byte>)
    requires Sendable(h) && Receivable(h) && Sendable(m) && Receivable(m) && Parse(tail).msgs == []
    ensures Parse(Encode(h) + (Encode(m) + tail)) == Parse(tail).(msgs := [h] + [m])
  {
    ParseOne(h, Encode(m) + tail);
    ParseOne(m, tail);
    assert [m] + [] == [m];
  }

  lemma UnluckyParse(h: Message, open: Message, filler: Message)
    requires Decoy(open, filler) && Sendable(h) && Intact(h) && Receivable(h)
    ensures (forall x <- Unlucky(h, open, filler) :: Sendable(x))
    ensures var p := Parse(WireOf(Unlucky(h, open, filler)));
            p.msgs == [h] + [Foretold(open, filler)] && p.violation == Some(UnexpectedFrame)
  {
    UnluckyWire(h, open, filler);
    RefusedHead([open]);
    ParseTwo(h, Foretold(open, filler), WireOf([open]));
  }

  lemma UnluckyDue(h: Message, open: Message, filler: Message)
    requires Decoy(open, filler) && Receivable(h)
    ensures var ms := Unlucky(h, open, filler);
            ReceivablePrefix(ms) == 2 && ms[..2] == [h] + [Foretold(open, filler)] && |ms| > 2
  {
    PrefixCons(h, [Foretold(open, filler)] + Decoys(open, filler));
    PrefixCons(Foretold(open, filler), Decoys(open, filler));
    PrefixCons(open, [filler] + [open]);
  }

  function UnluckyRun(open: Message, filler: Message): seq<Op>
    requires Decoy(open, filler)
  {
    [Opened(0, 1, SQ.Accepted)] + SendAll([Foretold(open, filler)] + Decoys(open, filler))
  }

  lemma UnluckySends(open: Message, filler: Message)
    requires Decoy(open, filler)
    ensures var s := RunSide(START, UnluckyRun(open, filler));
            Clear(s) && s.msgs == Unlucky(Hello(OUR_HELLO), open, filler)
  {
    var first := Opened(0, 1, SQ.Accepted);
    var ms := [Foretold(open, filler)] + Decoys(open, filler);
    OpensClear();
    RunFirst(START, first, SendAll(ms));
    SendAllSends(StepSide(START, first), ms);
  }

  lemma OpensClear()
    ensures var s := StepSide(START, Opened(0, 1, SQ.Accepted)); Clear(s) && s.msgs == [Hello(OUR_HELLO)]
  {
    StepKeeps(START, Opened(0, 1, SQ.Accepted));
  }

  lemma EverythingThrough(s: Side)
    requires Clear(s)
    ensures GotThrough(s) == s.msgs
  {
    assert s.msgs[..|s.q.fates|] == s.msgs;
    AllSentDelivers(s.msgs, s.q.fates);
  }

  /** Being in step is not implied when something was sent after the first client-to-server message: on
      this run a message that did not go out whole arrives all the same, and a protocol error ends the
      stream as it should, but at a later frame than the one that was to raise it. */
  lemma ArrivesByChance(open: Message, filler: Message, chunks: seq<seq<byte>>)
    requires Decoy(open, filler)
    requires Concat(chunks) == Concat(RunSide(START, UnluckyRun(open, filler)).q.wire)
    ensures var s := RunSide(START, UnluckyRun(open, filler));
            Arrived(s, FeedAll([], chunks)) && Foretold(open, filler) in Due(s) && !Intact(Foretold(open, filler))
  {
    var s := RunSide(START, UnluckyRun(open, filler));
    var h := Hello(OUR_HELLO);
    UnluckySends(open, filler);
    EverythingThrough(s);
    WireIsWireOf(s);
    QueuedFramed(s);
    UnluckyParse(h, open, filler);
    UnluckyDue(h, open, filler);
    ChunkingIrrelevant([], chunks);
    assert [] + Concat(chunks) == Concat(chunks);
  }
}
