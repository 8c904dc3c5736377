/** Which slot an event of the shim acts on, and which segments it owes the local end, on every run. */
module TunEvents {
  import opened Bytes
  import opened Frame
  import opened TunSegment
  import opened TunTable
  import opened TunHistory

  // ----- which slot -----

  /** No live slot has the packet's tuple. */
  predicate Unknown(w: World, p: TcpPacket)
    requires |w.ten| == MAX_TCP_CONNS
  {
    forall i | 0 <= i < MAX_TCP_CONNS :: Live(w.ten[i]) ==> w.ten[i].tuple != TupleOfPacket(p)
  }

  lemma ClosedExactly(w: World, i: nat)
    requires Inv(w) && i < MAX_TCP_CONNS
    ensures w.tun.conns[i].state == Closed <==> !Live(w.ten[i])
    ensures Live(w.ten[i]) ==> TupleOf(w.tun.conns[i]) == w.ten[i].tuple
  {
    assert SlotInv(i, w.tun.conns[i], w.tun.age[i], w.ten[i]);
  }

  lemma UnknownExactly(w: World, p: TcpPacket)
    requires Inv(w)
    ensures Find(w.tun.conns, TupleOfPacket(p), 0).None? <==> Unknown(w, p)
  {
    forall i | 0 <= i < MAX_TCP_CONNS
      ensures Matches(w.tun.conns[i], TupleOfPacket(p)) <==> Live(w.ten[i]) && w.ten[i].tuple == TupleOfPacket(p)
    {
      ClosedExactly(w, i);
    }
  }

  /** A SYN opens slot i exactly if no live slot has its tuple and i is the first slot that is free: a known
      connection's SYN is ignored, and any other only if all slots are taken. */
  lemma SynOpensExactly(w: World, p: TcpPacket, i: nat)
    requires Inv(w) && IsSyn(Arrive(p)) && i < MAX_TCP_CONNS
    ensures Who(w.tun, Arrive(p)) == Some(i)
       <==> Unknown(w, p) && !Live(w.ten[i]) && forall j | 0 <= j < i :: Live(w.ten[j])
  {
    UnknownExactly(w, p);
    forall j | 0 <= j < MAX_TCP_CONNS ensures Matches(w.tun.conns[j], Free) <==> !Live(w.ten[j]) {
      ClosedExactly(w, j);
    }
    var f := Find(w.tun.conns, Free, 0);
    if f.None? {
      assert !Matches(w.tun.conns[i], Free);
    }
  }

  /** Any other event acts on slot i exactly if the slot is live and the event names it: a packet by its
      tuple, a message from the peer by the stream id 0xE000 + i. */
  lemma ActsExactly(w: World, e: Event, i: nat)
    requires Inv(w) && !e.Sweep? && !IsSyn(e) && i < MAX_TCP_CONNS
    ensures Who(w.tun, e) == Some(i)
       <==> Live(w.ten[i]) && match e
                              case Arrive(p) => w.ten[i].tuple == TupleOfPacket(p)
                              case OnOpenAck(sid, _) => sid == 0xE000 + i
                              case OnData(sid, _) => sid == 0xE000 + i
                              case OnCloseWr(sid) => sid == 0xE000 + i
                              case OnRst(sid) => sid == 0xE000 + i
  {
    match e
    case Arrive(p) => LookupsAgree(w, i, TupleOfPacket(p), 0);
    case OnOpenAck(sid, _) => LookupsAgree(w, i, ByTuple(NO_ADDR, 0, NO_ADDR, 0), sid);
    case OnData(sid, _) => LookupsAgree(w, i, ByTuple(NO_ADDR, 0, NO_ADDR, 0), sid);
    case OnCloseWr(sid) => LookupsAgree(w, i, ByTuple(NO_ADDR, 0, NO_ADDR, 0), sid);
    case OnRst(sid) => LookupsAgree(w, i, ByTuple(NO_ADDR, 0, NO_ADDR, 0), sid);
  }

  /** An event that acts on no slot does nothing: no packet is answered and no message forwarded. */
  lemma Ignored(w: World, e: Event)
    requires Inv(w) && !e.Sweep? && forall i | 0 <= i < MAX_TCP_CONNS :: Who(w.tun, e) != Some(i)
    ensures Step(w.tun, e) == Result(w.tun, [])
  {
  }

  /** Where a slot starts: its ISN, as a number, and its stream id. */
  lemma SlotNumbers(i: nat)
    requires i < MAX_TCP_CONNS
    ensures MAX_TCP_CONNS == 128 && Sid(i) == 0xE000 + i && Isn(i) == (0xC0FF_EE00 + i * 0x1_0000) % 0x1_0000_0000
  {
  }

  /** A sweep ages a slot exactly if it is waiting and not yet at 30; it clears every other slot's age. So the
      age a tenancy inherits is what its slot waited since the last sweep that did not find it waiting. */
  lemma SweepAgesExactly(w: World, i: nat)
    requires Inv(w) && i < MAX_TCP_CONNS
    ensures StepWorld(w, Sweep).tun.age[i]
         == if StateOf(w.ten[i]) == SynRcvd && w.tun.age[i] < 30 then w.tun.age[i] + 1 else 0
  {
    assert SlotInv(i, w.tun.conns[i], w.tun.age[i], w.ten[i]);
    SweepIsPointwise(w.tun, i);
  }

  // ----- which segments -----

  function Count(due: seq<Sketch>, flags: byte): nat {
    if due == [] then 0 else (if due[0].flags == flags then 1 else 0) + Count(due[1..], flags)
  }

  function CountSegments(segs: seq<Out>, flags: byte): nat {
    if segs == [] then 0
    else (if segs[0].ToTun? && segs[0].flags == flags then 1 else 0) + CountSegments(segs[1..], flags)
  }

  lemma {:induction false} CountAppend(a: seq<Sketch>, b: seq<Sketch>, flags: byte)
    ensures Count(a + b, flags) == Count(a, flags) + Count(b, flags)
  {
    if a == [] {
      assert a + b == b;
    } else {
      assert (a + b)[0] == a[0] && (a + b)[1..] == a[1..] + b;
      CountAppend(a[1..], b, flags);
    }
  }

  lemma {:induction false} CountSame(n: nat, d: Sketch, flags: byte)
    ensures Count(seq(n, _ => d), flags) == if d.flags == flags then n else 0
  {
    if n > 0 {
      var s := seq(n, _ => d);
      assert s[1..] == seq(n - 1, _ => d);
      CountSame(n - 1, d, flags);
    }
  }

  lemma {:induction false} CountAsDue(segs: seq<Out>, due: seq<Sketch>, id: nat, flags: byte)
    requires AsDue(segs, due, id)
    ensures CountSegments(segs, flags) == Count(due, flags)
  {
    if segs != [] {
      forall k | 0 <= k < |segs| - 1
        ensures segs[1..][k].ToTun? && Drawn(segs[1..][k], due[1..][k]) && segs[1..][k].c.ipId == Low16(id + 1 + k)
      {
        assert segs[1..][k] == segs[k + 1] && due[1..][k] == due[k + 1];
      }
      CountAsDue(segs[1..], due[1..], id + 1, flags);
    }
  }

  /** How many segments of each kind the history calls for. */
  ghost predicate Tally(h: Tenancy) {
    && Count(h.due, 0x12) == h.openAcks
    && Count(h.due, 0x11) == h.closeWrs
    && Count(h.due, 0x14) == (if h.muxReset then 1 else 0)
    && (h.muxReset ==> h.aborted && h.due != [] && h.due[|h.due| - 1].flags == 0x14)
    && (forall d <- h.due :: d.flags in {0x10, 0x11, 0x12, 0x14, 0x18})
  }

  lemma DueTallies(h: Tenancy, flags: byte, n: nat)
    ensures forall f: byte :: Count(Due(h, flags, n).due, f) == Count(h.due, f) + if f == flags then n else 0
  {
    forall f: byte ensures Count(Due(h, flags, n).due, f) == Count(h.due, f) + if f == flags then n else 0 {
      CountAppend(h.due, seq(n, _ => Sketch(flags, h.ackNo)), f);
      CountSame(n, Sketch(flags, h.ackNo), f);
    }
  }

  lemma AcksTally(h: Tenancy, p: TcpPacket, f: byte)
    requires f != 0x10
    ensures Count(h.due + AcksDue(p), f) == Count(h.due, f)
  {
    CountAppend(h.due, AcksDue(p), f);
    CountAppend(PayloadAck(p), FinAck(p), f);
  }

  lemma SawTallies(h: Tenancy, e: Event)
    requires Tally(h) && Live(h) && !e.Sweep?
    ensures Tally(Saw(h, e))
  {
    if e.Arrive? {
      PacketTallies(h, e.p);
    } else {
      MuxTallies(h, e);
    }
  }

  lemma PacketTallies(h: Tenancy, p: TcpPacket)
    requires Tally(h) && Live(h)
    ensures Tally(SawPacket(h, p))
  {
    AcksTally(h, p, 0x11);
    AcksTally(h, p, 0x12);
    AcksTally(h, p, 0x14);
  }

  lemma MuxTallies(h: Tenancy, e: Event)
    requires Tally(h) && Live(h) && !e.Sweep? && !e.Arrive?
    ensures Tally(Saw(h, e))
  {
    match e
    case OnOpenAck(_, status) => DueTallies(h, if status != 0 then 0x14 else 0x12, 1);
    case OnData(_, data) => DueTallies(h, 0x18, Pieces(|data|));
    case OnCloseWr(_) => DueTallies(h, 0x11, 1);
    case OnRst(_) => DueTallies(h, 0x14, 1);
  }

  ghost predicate Tallied(w: World)
    requires |w.ten| == MAX_TCP_CONNS
  {
    forall i | 0 <= i < MAX_TCP_CONNS :: Tally(w.ten[i])
  }

  lemma SameDue(h: Tenancy, h': Tenancy)
    requires Tally(h) && h'.due == h.due && h'.openAcks == h.openAcks && h'.closeWrs == h.closeWrs
    requires h'.muxReset == h.muxReset && (h.aborted ==> h'.aborted)
    ensures Tally(h')
  {
  }

  lemma StepTallies(w: World, e: Event)
    requires Inv(w) && Tallied(w)
    ensures Tallied(StepWorld(w, e))
  {
    var w' := StepWorld(w, e);
    forall i | 0 <= i < MAX_TCP_CONNS ensures Tally(w'.ten[i]) {
      if e.Sweep? {
        SameDue(w.ten[i], w'.ten[i]);
      } else if Who(w.tun, e) == Some(i) {
        if !IsSyn(e) {
          WhoIsLive(w, e, i);
          SawTallies(w.ten[i], e);
          SameDue(Saw(w.ten[i], e), w'.ten[i]);
        }
      } else {
        assert w'.ten[i] == w.ten[i];
      }
    }
  }

  lemma {:induction false} RunTallies(w: World, es: seq<Event>)
    requires Inv(w) && Tallied(w)
    ensures Inv(RunWorld(w, es)) && Tallied(RunWorld(w, es))
    decreases |es|
  {
    if es != [] {
      StepKeeps(w, es[0]);
      StepTallies(w, es[0]);
      RunTallies(StepWorld(w, es[0]), es[1..]);
    }
  }

  /** On every run, the segments written in a tenancy are one SYN|ACK (0x12) per OPEN_ACK of status 0, one
      FIN|ACK (0x11) per CLOSE_WR, one RST|ACK (0x14), the last, exactly if the mux reset the connection or
      failed to open it, PSH|ACKs (0x18) for its data, and plain ACKs (0x10); nothing else. */
  lemma SegmentsByFlag(es: seq<Event>, i: nat)
    requires i < MAX_TCP_CONNS
    ensures var h := RunWorld(START, es).ten[i];
            && CountSegments(h.segs, 0x12) == h.openAcks
            && CountSegments(h.segs, 0x11) == h.closeWrs
            && CountSegments(h.segs, 0x14) == (if h.muxReset then 1 else 0)
            && (h.muxReset ==> h.segs != [] && h.segs[|h.segs| - 1].ToTun? && h.segs[|h.segs| - 1].flags == 0x14)
            && AsDue(h.segs, h.due, 1)
            && forall k | 0 <= k < |h.segs| :: h.segs[k].ToTun? && h.segs[k].flags in {0x10, 0x11, 0x12, 0x14, 0x18}
  {
    StartInv();
    RunTallies(START, es);
    var w := RunWorld(START, es);
    var h := w.ten[i];
    assert SlotInv(i, w.tun.conns[i], w.tun.age[i], h);
    CountAsDue(h.segs, h.due, 1, 0x11);
    CountAsDue(h.segs, h.due, 1, 0x12);
    CountAsDue(h.segs, h.due, 1, 0x14);
  }
}
