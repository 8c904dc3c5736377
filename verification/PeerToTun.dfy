/** From the Kotlin writer to the tun device: what the peer sends on a slot's stream is what the slot's
    segments carry. */
module PeerToTun {
  import opened Bytes
  import opened Frame
  import opened MuxSpec
  import opened KotlinWriter
  import opened TunSegment
  import opened TunTable
  import opened TunEvents
  import opened TunHistory
  import KotlinFrame
  import MF = MuxFeed

  /** The event of the shim a message becomes; main.c asks the shim first. */
  function EventsOf(m: Message): seq<Event> {
    match m
    case TcpOpenAck(sid, status) => [OnOpenAck(sid, status)]
    case TcpData(sid, data) => [OnData(sid, data)]
    case TcpCloseWr(sid) => [OnCloseWr(sid)]
    case TcpRst(sid, _) => [OnRst(sid)]
    case _ => []
  }

  function AllEventsOf(ms: seq<Message>): seq<Event> {
    if ms == [] then [] else EventsOf(ms[0]) + AllEventsOf(ms[1..])
  }

  /** The events of es that come from the peer, not from the tun device or the timer. */
  function FromPeer(es: seq<Event>): seq<Event> {
    if es == [] then [] else (if es[0].Arrive? || es[0].Sweep? then [] else [es[0]]) + FromPeer(es[1..])
  }

  /** The bytes of the TCP_DATA messages on stream sid. */
  function DataIn(ms: seq<Message>, sid: u16): seq<byte> {
    if ms == [] then [] else (if ms[0].TcpData? && ms[0].sid == sid then ms[0].data else []) + DataIn(ms[1..], sid)
  }

  /** The CLOSE_WRs on stream sid, and the OPEN_ACKs of status 0. */
  function ClosesIn(ms: seq<Message>, sid: u16): nat {
    if ms == [] then 0 else (if ms[0] == TcpCloseWr(sid) then 1 else 0) + ClosesIn(ms[1..], sid)
  }

  function AcksIn(ms: seq<Message>, sid: u16): nat {
    if ms == [] then 0 else (if ms[0] == TcpOpenAck(sid, 0) then 1 else 0) + AcksIn(ms[1..], sid)
  }

  function EventsCount(es: seq<Event>, e: Event): nat {
    if es == [] then 0 else (if es[0] == e then 1 else 0) + EventsCount(es[1..], e)
  }

  lemma {:induction false} EventsCountAppend(a: seq<Event>, b: seq<Event>, e: Event)
    ensures EventsCount(a + b, e) == EventsCount(a, e) + EventsCount(b, e)
  {
    if a == [] {
      assert a + b == b;
    } else {
      assert (a + b)[0] == a[0] && (a + b)[1..] == a[1..] + b;
      EventsCountAppend(a[1..], b, e);
    }
  }

  lemma {:induction false} MessagesCount(ms: seq<Message>, sid: u16)
    ensures EventsCount(AllEventsOf(ms), OnCloseWr(sid)) == ClosesIn(ms, sid)
    ensures EventsCount(AllEventsOf(ms), OnOpenAck(sid, 0)) == AcksIn(ms, sid)
  {
    if ms != [] {
      MessagesCount(ms[1..], sid);
      EventsCountAppend(EventsOf(ms[0]), AllEventsOf(ms[1..]), OnCloseWr(sid));
      EventsCountAppend(EventsOf(ms[0]), AllEventsOf(ms[1..]), OnOpenAck(sid, 0));
      if EventsOf(ms[0]) != [] {
        assert EventsOf(ms[0])[1..] == [];
      }
    }
  }

  lemma {:induction false} PeerCount(es: seq<Event>, e: Event)
    requires !e.Arrive? && !e.Sweep?
    ensures EventsCount(FromPeer(es), e) == EventsCount(es, e)
  {
    if es != [] {
      PeerCount(es[1..], e);
      EventsCountAppend(if es[0].Arrive? || es[0].Sweep? then [] else [es[0]], FromPeer(es[1..]), e);
      assert [es[0]][1..] == [];
    }
  }

  lemma {:induction false} RunCounts(w: World, es: seq<Event>, i: nat)
    requires Inv(w) && i < MAX_TCP_CONNS && LiveThroughout(w, es, i)
    ensures var h, h' := w.ten[i], RunWorld(w, es).ten[i];
            && h'.closeWrs == h.closeWrs + EventsCount(es, OnCloseWr(Sid(i)))
            && h'.openAcks == h.openAcks + EventsCount(es, OnOpenAck(Sid(i), 0))
    decreases |es|
  {
    if es != [] {
      StepKeeps(w, es[0]);
      StepCounts(w, es[0], i);
      RunCounts(StepWorld(w, es[0]), es[1..], i);
    }
  }

  lemma StepCounts(w: World, e: Event, i: nat)
    requires Inv(w) && i < MAX_TCP_CONNS && Live(w.ten[i]) && Live(StepWorld(w, e).ten[i])
    ensures var h, h' := w.ten[i], StepWorld(w, e).ten[i];
            && h'.closeWrs == h.closeWrs + (if e == OnCloseWr(Sid(i)) then 1 else 0)
            && h'.openAcks == h.openAcks + (if e == OnOpenAck(Sid(i), 0) then 1 else 0)
  {
    SidValue(i);
    if !e.Sweep? && !IsSyn(e) {
      ActsExactly(w, e, i);
      OwnStepCounts(w, e, i);
    } else if IsSyn(e) {
      SynOpensExactly(w, e.p, i);
    }
  }

  lemma OwnStepCounts(w: World, e: Event, i: nat)
    requires Inv(w) && i < MAX_TCP_CONNS && !e.Sweep? && !IsSyn(e)
    ensures var h, h' := w.ten[i], StepWorld(w, e).ten[i];
            var own := Who(w.tun, e) == Some(i);
            && h'.closeWrs == h.closeWrs + (if own && e.OnCloseWr? then 1 else 0)
            && h'.openAcks == h.openAcks + (if own && e.OnOpenAck? && e.status == 0 then 1 else 0)
  {
    SawCounts(w.ten[i], e);
  }

  lemma SawCounts(h: Tenancy, e: Event)
    requires !e.Sweep?
    ensures Saw(h, e).closeWrs == h.closeWrs + if e.OnCloseWr? then 1 else 0
    ensures Saw(h, e).openAcks == h.openAcks + if e.OnOpenAck? && e.status == 0 then 1 else 0
  {
    if e.Arrive? {
      PacketChanges(h, e.p);
    }
  }

  function EventData(e: Event, sid: u16): seq<byte> { if e.OnData? && e.sid == sid then e.data else [] }

  function EventsData(es: seq<Event>, sid: u16): seq<byte> {
    if es == [] then [] else EventData(es[0], sid) + EventsData(es[1..], sid)
  }

  lemma {:induction false} EventsDataAppend(a: seq<Event>, b: seq<Event>, sid: u16)
    ensures EventsData(a + b, sid) == EventsData(a, sid) + EventsData(b, sid)
  {
    if a == [] {
      assert a + b == b;
    } else {
      assert (a + b)[1..] == a[1..] + b;
      EventsDataAppend(a[1..], b, sid);
    }
  }

  lemma {:induction false} MessagesData(ms: seq<Message>, sid: u16)
    ensures EventsData(AllEventsOf(ms), sid) == DataIn(ms, sid)
  {
    if ms != [] {
      MessagesData(ms[1..], sid);
      EventsDataAppend(EventsOf(ms[0]), AllEventsOf(ms[1..]), sid);
      if EventsOf(ms[0]) != [] {
        assert EventsOf(ms[0])[1..] == [];
      }
    }
  }

  lemma OneEventData(e: Event, sid: u16)
    ensures EventsData([e], sid) == EventData(e, sid) && EventsData([], sid) == []
  {
    assert [e][1..] == [] && EventData(e, sid) + [] == EventData(e, sid);
  }

  lemma {:induction false} PeerData(es: seq<Event>, sid: u16)
    ensures EventsData(FromPeer(es), sid) == EventsData(es, sid)
  {
    if es != [] {
      PeerData(es[1..], sid);
      EventsDataAppend(if es[0].Arrive? || es[0].Sweep? then [] else [es[0]], FromPeer(es[1..]), sid);
      OneEventData(es[0], sid);
    }
  }

  /** Slot i is in use before and after every event. */
  ghost predicate LiveThroughout(w: World, es: seq<Event>, i: nat)
    requires Sized(w.tun) && |w.ten| == MAX_TCP_CONNS && i < MAX_TCP_CONNS
    decreases |es|
  {
    Live(w.ten[i]) && (es != [] ==> LiveThroughout(StepWorld(w, es[0]), es[1..], i))
  }

  lemma StepTakes(w: World, e: Event, i: nat)
    requires Inv(w) && i < MAX_TCP_CONNS && Live(w.ten[i])
    ensures StepWorld(w, e).ten[i].fromMux == w.ten[i].fromMux + EventData(e, Sid(i))
  {
    assert w.ten[i].fromMux + [] == w.ten[i].fromMux;
    if e.OnData? {
      SidValue(i);
      LookupsAgree(w, i, ByTuple(NO_ADDR, 0, NO_ADDR, 0), e.sid);
    } else {
      OthersTakeNothing(w, e, i);
    }
  }

  lemma OthersTakeNothing(w: World, e: Event, i: nat)
    requires Inv(w) && i < MAX_TCP_CONNS && Live(w.ten[i]) && !e.OnData?
    ensures StepWorld(w, e).ten[i].fromMux == w.ten[i].fromMux
  {
    assert SlotInv(i, w.tun.conns[i], w.tun.age[i], w.ten[i]);
    if !e.Sweep? && Who(w.tun, e).Some? && !IsSyn(e) {
      SawTakesNothing(w.ten[Who(w.tun, e).value], e);
    }
  }

  lemma SawTakesNothing(h: Tenancy, e: Event)
    requires !e.Sweep? && !e.OnData?
    ensures Saw(h, e).fromMux == h.fromMux
  {
    if e.Arrive? {
      PacketChanges(h, e.p);
    }
  }

  lemma {:induction false} RunTakes(w: World, es: seq<Event>, i: nat)
    requires Inv(w) && i < MAX_TCP_CONNS && LiveThroughout(w, es, i)
    ensures var w' := RunWorld(w, es);
            Inv(w') && w'.ten[i].fromMux == w.ten[i].fromMux + EventsData(es, Sid(i))
    decreases |es|
  {
    if es == [] {
      assert w.ten[i].fromMux + [] == w.ten[i].fromMux;
    } else {
      StepKeeps(w, es[0]);
      StepTakes(w, es[0], i);
      RunTakes(StepWorld(w, es[0]), es[1..], i);
      Regroup(w.ten[i].fromMux, EventData(es[0], Sid(i)), EventsData(es[1..], Sid(i)));
    }
  }

  lemma Regroup(a: seq<byte>, b: seq<byte>, c: seq<byte>)
    ensures a + b + c == a + (b + c)
  {
  }

  /** Frames that carry the messages ms, written by the Kotlin writer and cut anywhere, become events; however
      they interleave with packets and sweeps, while slot i lives its segments carry, besides what they
      carried before, exactly the TCP_DATA bytes of ms on its stream, in order; and it takes exactly the
      CLOSE_WRs and OPEN_ACKs of ms on it. */
  lemma PeerToSegments(ps: seq<Payload>, ms: seq<Message>, chunks: seq<seq<byte>>, w: World, es: seq<Event>, i: nat)
    requires Carry(ps[..Written(ps)], ms) && Concat(chunks) == KotlinFrame.Wire(Drain(ps))
    requires Inv(w) && i < MAX_TCP_CONNS && LiveThroughout(w, es, i)
    requires FromPeer(es) == AllEventsOf(MF.FeedAll([], chunks).msgs)
    ensures MF.FeedAll([], chunks).violation.None?
    ensures var h, h' := w.ten[i], RunWorld(w, es).ten[i];
            && Payloads(h'.segs) == Payloads(h.segs) + DataIn(ms, Sid(i))
            && h'.closeWrs == h.closeWrs + ClosesIn(ms, Sid(i)) && h'.openAcks == h.openAcks + AcksIn(ms, Sid(i))
            && Tiles(h'.segs, Isn(i), Add32(Isn(i), Used(h')))
  {
    KotlinToMux(ps, ms, chunks);
    MessagesData(ms, Sid(i));
    PeerData(es, Sid(i));
    MessagesCount(ms, Sid(i));
    PeerCount(es, OnCloseWr(Sid(i)));
    PeerCount(es, OnOpenAck(Sid(i), 0));
    RunTakes(w, es, i);
    RunCounts(w, es, i);
    var w' := RunWorld(w, es);
    assert SlotInv(i, w.tun.conns[i], w.tun.age[i], w.ten[i]);
    assert SlotInv(i, w'.tun.conns[i], w'.tun.age[i], w'.ten[i]);
  }
}
