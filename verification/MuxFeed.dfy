/** What successive mux_feed calls do to a session, on values: its unconsumed bytes, what each
    call reports, and why the split of a stream into calls does not matter. */
module MuxFeed {
  import opened Bytes
  import opened Frame
  import opened MuxSpec

  datatype Event = Received(msg: Message) | ProtocolError(what: Violation)

  /** The optional members of struct mux_callbacks. */
  datatype Callback =
    | OnHello | OnBye | OnPing | OnPong
    | OnTcpOpenAck | OnTcpData | OnTcpCloseWr | OnTcpRst | OnTcpWindow
    | OnUdpBindAck | OnUdpPacket | OnUdpClose | OnProtocolError

  /** The callback an event is reported through; client-to-server messages have none. */
  function CallbackOf(e: Event): Option<Callback> {
    match e
    case ProtocolError(_) => Some(OnProtocolError)
    case Received(m) =>
      match m
      case Hello(_) => Some(OnHello)
      case Bye(_) => Some(OnBye)
      case Ping(_) => Some(OnPing)
      case Pong(_) => Some(OnPong)
      case TcpOpenAck(_, _) => Some(OnTcpOpenAck)
      case TcpData(_, _) => Some(OnTcpData)
      case TcpCloseWr(_) => Some(OnTcpCloseWr)
      case TcpRst(_, _) => Some(OnTcpRst)
      case TcpWindow(_, _) => Some(OnTcpWindow)
      case UdpBindAck(_, _) => Some(OnUdpBindAck)
      case UdpPacket(_, _, _) => Some(OnUdpPacket)
      case UdpClose(_) => Some(OnUdpClose)
      case TcpOpen(_, _) => None
      case UdpBind(_) => None
  }

  predicate Handled(handles: set<Callback>, e: Event) {
    CallbackOf(e).Some? && CallbackOf(e).value in handles
  }

  /** The callbacks made for es when only those in handles are set. */
  function Delivered(handles: set<Callback>, es: seq<Event>): seq<Event> {
    if es == [] then []
    else (if Handled(handles, es[0]) then [es[0]] else []) + Delivered(handles, es[1..])
  }

  lemma {:induction false} DeliveredAppend(handles: set<Callback>, a: seq<Event>, b: seq<Event>)
    ensures Delivered(handles, a + b) == Delivered(handles, a) + Delivered(handles, b)
  {
    if a == [] {
      assert a + b == b;
    } else {
      assert (a + b)[0] == a[0] && (a + b)[1..] == a[1..] + b;
      DeliveredAppend(handles, a[1..], b);
      var one := if Handled(handles, a[0]) then [a[0]] else [];
      assert one + (Delivered(handles, a[1..]) + Delivered(handles, b))
          == one + Delivered(handles, a[1..]) + Delivered(handles, b);
    }
  }

  /** With all thirteen callbacks set, every event but a client-to-server message is called back. */
  lemma {:induction false} AllCalledBack(es: seq<Event>)
    requires forall k | 0 <= k < |es| :: es[k].Received? ==> Receivable(es[k].msg)
    ensures var all := {OnHello, OnBye, OnPing, OnPong, OnTcpOpenAck, OnTcpData, OnTcpCloseWr, OnTcpRst, OnTcpWindow,
                        OnUdpBindAck, OnUdpPacket, OnUdpClose, OnProtocolError};
            Delivered(all, es) == es
  {
    if es != [] {
      assert forall k | 0 <= k < |es| - 1 :: es[1..][k] == es[k + 1];
      AllCalledBack(es[1..]);
    }
  }

  function ReceivedAll(ms: seq<Message>): (es: seq<Event>)
    ensures |es| == |ms|
  {
    seq(|ms|, i requires 0 <= i < |ms| => Received(ms[i]))
  }

  /** One call: the messages it reports, the violation it ends in, and the bytes it leaves. */
  datatype Fed = Fed(msgs: seq<Message>, violation: Option<Violation>, pending: seq<byte>)

  function Events(f: Fed): seq<Event> {
    ReceivedAll(f.msgs) + if f.violation.None? then [] else [ProtocolError(f.violation.value)]
  }

  /** A complete frame that was refused and stays in the payload buffer. */
  predicate Stuck(pending: seq<byte>) {
    HasFrame(pending) && |pending| == FrameSize(pending) > FRAME_HEADER_SIZE && DispatchHead(pending).Violate?
  }

  predicate Resumable(pending: seq<byte>) { HasFrame(pending) ==> Stuck(pending) }

  /** What a refused frame at the head of rest leaves in the session: a frame without payload
      leaves nothing, any other leaves itself. The rest of the call's input is dropped. */
  function Refused(rest: seq<byte>): seq<byte> {
    if HasFrame(rest) && FrameSize(rest) > FRAME_HEADER_SIZE then rest[..FrameSize(rest)] else []
  }

  function FeedStep(pending: seq<byte>, buf: seq<byte>): (f: Fed)
  {
    if buf == [] then Fed([], None, pending)
    else
      var p := Parse(pending + buf);
      Fed(p.msgs, p.violation, if p.violation.None? then p.rest else Refused(p.rest))
  }

  /** Calls on successive chunks, up to and including the first that reports a violation. */
  function FeedAll(pending: seq<byte>, chunks: seq<seq<byte>>): Fed
    decreases |chunks|
  {
    if chunks == [] then Fed([], None, pending)
    else
      var f := FeedStep(pending, chunks[0]);
      if f.violation.Some? then f
      else
        var g := FeedAll(f.pending, chunks[1..]);
        g.(msgs := f.msgs + g.msgs)
  }

  /** The one-shot parse of a whole stream, as a receiver of it. */
  function FeedWhole(s: seq<byte>): Fed {
    var p := Parse(s);
    Fed(p.msgs, p.violation, if p.violation.None? then p.rest else Refused(p.rest))
  }

  lemma RefusedStable(rest: seq<byte>, more: seq<byte>)
    requires HasFrame(rest)
    ensures HasFrame(rest + more) && Refused(rest + more) == Refused(rest)
  {
    HeadStable(rest, more);
  }

  lemma RefusedIsStuck(rest: seq<byte>)
    requires HasFrame(rest) && DispatchHead(rest).Violate?
    ensures var p := Refused(rest);
            p == [] || (Stuck(p) && DispatchHead(p) == DispatchHead(rest))
  {
    var p := Refused(rest);
    if p != [] {
      assert p[FRAME_HEADER_SIZE..] == rest[FRAME_HEADER_SIZE..FrameSize(rest)];
    }
  }

  /** However a stream is split into calls, including empty ones and splits inside headers, the
      calls together report the messages and the violation of its one-shot parse and leave the
      same bytes. */
  lemma {:induction false} ChunkingIrrelevant(pending: seq<byte>, chunks: seq<seq<byte>>)
    requires !HasFrame(pending)
    ensures FeedAll(pending, chunks) == FeedWhole(pending + Concat(chunks))
    decreases |chunks|
  {
    if chunks == [] {
      assert pending + Concat(chunks) == pending;
    } else {
      var a, b := pending + chunks[0], Concat(chunks[1..]);
      assert pending + Concat(chunks) == a + b;
      assert chunks[0] == [] ==> a == pending;
      ParseResumes(a, b);
      ParseRest(a);
      if Parse(a).violation.Some? {
        RefusedStable(Parse(a).rest, b);
      } else {
        ChunkingIrrelevant(Parse(a).rest, chunks[1..]);
      }
    }
  }

  /** After a refused frame with a payload the session is stuck for good: every further call
      with any bytes reports that same violation, no message, and changes nothing. */
  lemma StuckForever(pending: seq<byte>, buf: seq<byte>)
    requires Stuck(pending) && buf != []
    ensures FeedStep(pending, buf) == Fed([], Some(DispatchHead(pending).what), pending)
  {
    ParseHead(pending, buf);
    RefusedStable(pending, buf);
    assert Refused(pending) == pending;
  }

  /** Every call leaves a session from which the next call is defined. */
  lemma FeedKeepsResumable(pending: seq<byte>, buf: seq<byte>)
    requires Resumable(pending)
    ensures Resumable(FeedStep(pending, buf).pending)
  {
    var p := Parse(pending + buf);
    ParseRest(pending + buf);
    if p.violation.Some? {
      RefusedIsStuck(p.rest);
    }
  }

  // ----- one frame of a call -----

  function EventOf(d: Dispatched): Event {
    match d
    case Deliver(msg) => Received(msg)
    case Violate(what) => ProtocolError(what)
  }

  /** A delivered frame joins the call's messages. */
  lemma AbsorbDelivered(whole: seq<byte>, msgs: seq<Message>, f: seq<byte>, tail: seq<byte>)
    requires HasFrame(f) && FrameSize(f) == |f| && DispatchHead(f).Deliver?
    requires Parse(whole) == After(msgs, Parse(f + tail))
    ensures Parse(whole) == After(msgs + [DispatchHead(f).msg], Parse(tail))
  {
    ParseHead(f, tail);
    AfterAfter(msgs, [DispatchHead(f).msg], Parse(tail));
  }

  /** A refused frame ends the call. */
  lemma AbsorbRefused(whole: seq<byte>, msgs: seq<Message>, f: seq<byte>, tail: seq<byte>)
    requires HasFrame(f) && FrameSize(f) == |f| && DispatchHead(f).Violate?
    requires Parse(whole) == After(msgs, Parse(f + tail))
    ensures FeedWhole(whole) ==
            Fed(msgs, Some(DispatchHead(f).what), if |f| == FRAME_HEADER_SIZE then [] else f)
  {
    ParseHead(f, tail);
    RefusedFrame(f, tail);
    var what := DispatchHead(f).what;
    EndsWith(whole, msgs, Parsed([], f + tail, Some(what)));
  }

  lemma RefusedFrame(f: seq<byte>, tail: seq<byte>)
    requires HasFrame(f) && FrameSize(f) == |f|
    ensures Refused(f + tail) == if |f| == FRAME_HEADER_SIZE then [] else f
  {
    RefusedStable(f, tail);
    assert f[..|f|] == f;
  }

  lemma EndsWith(whole: seq<byte>, msgs: seq<Message>, p: Parsed)
    requires p.msgs == [] && p.violation.Some? && Parse(whole) == After(msgs, p)
    ensures FeedWhole(whole) == Fed(msgs, p.violation, Refused(p.rest))
  {
    assert msgs + [] == msgs;
  }

  /** The callbacks made by a call grow by those of its next event. */
  lemma CallsGrow(handles: set<Callback>, before: seq<Event>, msgs: seq<Message>, d: Dispatched)
    ensures var calls := before + Delivered(handles, ReceivedAll(msgs)) + Delivered(handles, [EventOf(d)]);
            calls == before + Delivered(handles, if d.Deliver? then ReceivedAll(msgs + [d.msg])
                                                 else ReceivedAll(msgs) + [ProtocolError(d.what)])
  {
    DeliveredAppend(handles, ReceivedAll(msgs), [EventOf(d)]);
    if d.Deliver? {
      assert ReceivedAll(msgs) + [EventOf(d)] == ReceivedAll(msgs + [d.msg]);
    }
  }

  /** A call that runs out of input without a violation. */
  lemma CallDone(pending: seq<byte>, buf: seq<byte>, msgs: seq<Message>, left: seq<byte>)
    requires if buf == [] then msgs == [] && left == pending
             else !HasFrame(left) && Parse(pending + buf) == After(msgs, Parse(left))
    ensures var f := FeedStep(pending, buf);
            f.violation.None? && f.pending == left && Events(f) == ReceivedAll(msgs)
  {
    assert msgs + [] == msgs;
  }
}
