/** FrameWriter.kt, the peer's one writer, and what panctl's session makes of what it writes. */
module KotlinWriter {
  import opened Bytes
  import opened Frame
  import opened MuxSpec
  import opened MuxFeed
  import opened KotlinFrame

  /** A queued frame; extra is empty if it is absent. Array sizes are Ints. */
  datatype Payload = Payload(kind: Int32, streamId: Int32, body: Array, extra: Array)

  type Array = a: seq<Int8> | |a| < 0x8000_0000

  /** Int addition of two sizes wraps. */
  function TotalLen(p: Payload): Int32 {
    (|p.body| + |p.extra| + 0x8000_0000) % 0x1_0000_0000 - 0x8000_0000
  }

  /** One pass of drain's loop: the bytes written, or the exception FrameCodec.header raises. */
  function WriteFrame(p: Payload): Outcome<seq<Int8>> {
    match Header(p.kind, p.streamId, TotalLen(p))
    case Returned(h) => Returned(h + p.body + p.extra)
    case IoFailure => IoFailure
    case IllegalArgument => IllegalArgument
    case IllegalState => IllegalState
  }

  /** drain on the frames of ps: what it writes before the queue ends or an exception does. */
  function Drain(ps: seq<Payload>): seq<Int8> {
    if ps == [] then []
    else match WriteFrame(ps[0])
      case Returned(bytes) => bytes + Drain(ps[1..])
      case _ => []
  }

  predicate Legal(p: Payload) { 0 <= p.streamId <= 0xFFFF && |p.body| + |p.extra| <= FRAME_MAX_PAYLOAD }

  function PayloadOf(p: Payload): seq<byte> { Wire(p.body) + Wire(p.extra) }

  function HeaderOf(p: Payload): FrameHeader
    requires Legal(p)
  {
    FrameHeader(PROTO_VERSION, p.kind % 0x100, p.streamId, |PayloadOf(p)|)
  }

  lemma WireAppend(a: seq<Int8>, b: seq<Int8>)
    ensures Wire(a + b) == Wire(a) + Wire(b)
  {
  }

  /** The writer refuses exactly what has no frame, and writes the frame C would. */
  lemma WritesFrame(p: Payload)
    ensures WriteFrame(p).Returned? <==> Legal(p)
    ensures Legal(p) ==> Wire(WriteFrame(p).value) == FrameOf(p.kind % 0x100, p.streamId, PayloadOf(p))
  {
    HeadersAgree(p.kind, p.streamId, TotalLen(p));
    if Legal(p) {
      var h := Header(p.kind, p.streamId, TotalLen(p)).value;
      WireAppend(h + p.body, p.extra);
      WireAppend(h, p.body);
    }
  }

  /** Every frame of ps is one this receiver delivers, as the message of ms in its place. */
  ghost predicate Carry(ps: seq<Payload>, ms: seq<Message>) {
    && |ps| == |ms|
    && forall i | 0 <= i < |ps| ::
         Legal(ps[i]) && Receivable(ms[i]) && Carries(HeaderOf(ps[i]), PayloadOf(ps[i]), ms[i])
  }

  lemma HeadDispatch(p: Payload, m: Message)
    requires Legal(p)
    ensures var f := FrameOf(p.kind % 0x100, p.streamId, PayloadOf(p));
            && HasFrame(f) && FrameSize(f) == |f|
            && DispatchHead(f) == Dispatch(HeaderOf(p), PayloadOf(p))
            && (DispatchHead(f) == Deliver(m) <==> Receivable(m) && Carries(HeaderOf(p), PayloadOf(p), m))
  {
    FrameParts(p.kind % 0x100, p.streamId, PayloadOf(p));
    DispatchExactly(HeaderOf(p), PayloadOf(p), m);
  }

  lemma DrainHead(ps: seq<Payload>)
    requires ps != [] && Legal(ps[0])
    ensures Wire(Drain(ps)) == FrameOf(ps[0].kind % 0x100, ps[0].streamId, PayloadOf(ps[0])) + Wire(Drain(ps[1..]))
  {
    WritesFrame(ps[0]);
    WireAppend(WriteFrame(ps[0]).value, Drain(ps[1..]));
  }

  /** The one-shot parse of what the writer writes delivers exactly what its frames carry. */
  lemma {:induction false} ParsesExactly(ps: seq<Payload>, ms: seq<Message>)
    requires forall p <- ps :: Legal(p)
    ensures Parse(Wire(Drain(ps))) == Parsed(ms, [], None) <==> Carry(ps, ms)
    decreases |ps|
  {
    if ps == [] {
      assert Wire(Drain(ps)) == [];
    } else {
      var p, tail := ps[0], Wire(Drain(ps[1..]));
      DrainHead(ps);
      HeadDispatch(p, if ms == [] then Bye(0) else ms[0]);
      if ms != [] {
        ParsesExactly(ps[1..], ms[1..]);
        CarryHead(ps, ms);
        DeliversHead(FrameOf(p.kind % 0x100, p.streamId, PayloadOf(p)), tail, ms);
      } else {
        ParseHead(FrameOf(p.kind % 0x100, p.streamId, PayloadOf(p)), tail);
      }
    }
  }

  lemma CarryHead(ps: seq<Payload>, ms: seq<Message>)
    requires ps != [] && ms != [] && Legal(ps[0])
    ensures Carry(ps, ms) <==>
            Receivable(ms[0]) && Carries(HeaderOf(ps[0]), PayloadOf(ps[0]), ms[0]) && Carry(ps[1..], ms[1..])
  {
    if Carry(ps[1..], ms[1..]) {
      assert forall i | 0 < i < |ps| :: ps[i] == ps[1..][i - 1] && ms[i] == ms[1..][i - 1];
    }
  }

  lemma DeliversHead(f: seq<byte>, tail: seq<byte>, ms: seq<Message>)
    requires HasFrame(f) && FrameSize(f) == |f| && ms != []
    ensures Parse(f + tail) == Parsed(ms, [], None)
       <==> DispatchHead(f) == Deliver(ms[0]) && Parse(tail) == Parsed(ms[1..], [], None)
  {
    ParseHead(f, tail);
    if DispatchHead(f) == Deliver(ms[0]) {
      assert [ms[0]] + ms[1..] == ms;
      assert ([ms[0]] + Parse(tail).msgs)[1..] == Parse(tail).msgs;
    }
  }

  /** The frames written before the first that the writer refuses with an exception. */
  function Written(ps: seq<Payload>): (n: nat)
    ensures n <= |ps| && (n < |ps| ==> !Legal(ps[n]))
    ensures forall p <- ps[..n] :: Legal(p)
  {
    if ps == [] || !Legal(ps[0]) then 0
    else
      var n := Written(ps[1..]);
      assert ps[..n + 1] == [ps[0]] + ps[1..][..n];
      n + 1
  }

  lemma {:induction false} DrainStops(ps: seq<Payload>)
    ensures Drain(ps) == Drain(ps[..Written(ps)])
    decreases |ps|
  {
    if ps != [] {
      WritesFrame(ps[0]);
      if Legal(ps[0]) {
        DrainStops(ps[1..]);
        assert ps[..Written(ps)][1..] == ps[1..][..Written(ps[1..])];
      }
    }
  }

  /** From the peer to this side: whatever frames the Kotlin writer is given, cut anywhere, the session
      reports exactly the messages ms, without a protocol error and with nothing left over, exactly if
      the frames up to the first that the writer refuses carry them one by one. */
  lemma KotlinToMux(ps: seq<Payload>, ms: seq<Message>, chunks: seq<seq<byte>>)
    requires Concat(chunks) == Wire(Drain(ps))
    ensures FeedAll([], chunks) == Fed(ms, None, []) <==> Carry(ps[..Written(ps)], ms)
  {
    DrainStops(ps);
    ParsesExactly(ps[..Written(ps)], ms);
    ChunkingIrrelevant([], chunks);
    assert [] + Concat(chunks) == Concat(chunks);
  }
}
