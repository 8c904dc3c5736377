/** What a tenancy of a shim slot inherits from the one before it: sequence numbers and age. */
module TunReuse {
  import opened Bytes
  import opened Frame
  import opened TunSegment
  import opened TunTable
  import opened TunHistory

  // ----- the sequence numbers a tenancy occupies -----

  /** How far n lies ahead of from, in the circle of sequence numbers. */
  function Ahead(from: u32, n: u32): (d: u32)
    ensures Add32(from, d) == n
  {
    if from <= n then n - from else n + 0x1_0000_0000 - from
  }

  ghost predicate Covers(s: Out, n: u32) { s.ToTun? && Ahead(s.c.ourSeqNext, n) < SegLen(s) }

  /** One of the tenancy's segments occupies sequence number n. */
  ghost predicate Occupies(h: Tenancy, n: u32) {
    exists k | 0 <= k < |h.segs| :: Covers(h.segs[k], n)
  }

  lemma AheadAfter(from: u32, len: nat, n: u32)
    requires len < 0x1_0000_0000
    ensures Ahead(Add32(from, len), n) == if Ahead(from, n) >= len then Ahead(from, n) - len
                                           else Ahead(from, n) + 0x1_0000_0000 - len
  {
  }

  lemma SomeCovers(segs: seq<Out>, n: u32)
    requires segs != []
    ensures (exists k | 0 <= k < |segs| :: Covers(segs[k], n))
       <==> Covers(segs[0], n) || exists k | 0 <= k < |segs| - 1 :: Covers(segs[1..][k], n)
  {
    forall k | 0 < k < |segs| ensures Covers(segs[k], n) ==> Covers(segs[1..][k - 1], n) {
    }
  }

  lemma {:induction false} TiledNumbers(segs: seq<Out>, tuple: Query, from: u32, to: u32, n: u32)
    requires Tiles(segs, from, to) && Fits(segs, tuple)
    ensures (exists k | 0 <= k < |segs| :: Covers(segs[k], n)) <==> Ahead(from, n) < Span(segs)
  {
    if segs != [] {
      var len := SegLen(segs[0]);
      TiledNumbers(segs[1..], tuple, Add32(from, len), to, n);
      AheadAfter(from, len, n);
      SomeCovers(segs, n);
      assert Covers(segs[0], n) <==> Ahead(from, n) < len;
    }
  }

  /** A tenancy occupies exactly the first Used numbers from its slot's ISN on. */
  lemma OccupiesExactly(i: nat, h: Tenancy, n: u32)
    requires WrittenInv(i, h)
    ensures Occupies(h, n) <==> Ahead(Isn(i), n) < Used(h)
  {
    TiledNumbers(h.segs, h.tuple, Isn(i), Add32(Isn(i), Used(h)), n);
  }

  // ----- two tenancies of one slot -----

  /** No event of es opens slot i anew. */
  ghost predicate SameTenant(w: World, es: seq<Event>, i: nat)
    requires Sized(w.tun) && |w.ten| == MAX_TCP_CONNS
    decreases |es|
  {
    es == [] || (!(IsSyn(es[0]) && Who(w.tun, es[0]) == Some(i)) && SameTenant(StepWorld(w, es[0]), es[1..], i))
  }

  /** The SYN a tenancy was opened by. */
  predicate OpenedBy(h: Tenancy, tuple: Query, synSeq: u32) { h.started && h.tuple == tuple && h.synSeq == synSeq }

  lemma StepKeepsTenant(w: World, e: Event, i: nat)
    requires Inv(w) && i < MAX_TCP_CONNS && !(IsSyn(e) && Who(w.tun, e) == Some(i))
    ensures var h, h' := w.ten[i], StepWorld(w, e).ten[i];
            h'.started == h.started && h'.tuple == h.tuple && h'.synSeq == h.synSeq
  {
    if !e.Sweep? && !IsSyn(e) {
      SawKeepsOpening(w.ten[i], e);
    }
  }

  lemma SawKeepsOpening(h: Tenancy, e: Event)
    requires !e.Sweep?
    ensures Saw(h, e).started == h.started && Saw(h, e).tuple == h.tuple && Saw(h, e).synSeq == h.synSeq
  {
    if e.Arrive? {
      PacketChanges(h, e.p);
    } else {
      MessageChanges(h, e);
    }
  }

  lemma {:induction false} RunKeepsTenant(w: World, es: seq<Event>, i: nat, tuple: Query, synSeq: u32)
    requires Inv(w) && i < MAX_TCP_CONNS && SameTenant(w, es, i) && OpenedBy(w.ten[i], tuple, synSeq)
    ensures Inv(RunWorld(w, es)) && OpenedBy(RunWorld(w, es).ten[i], tuple, synSeq)
    decreases |es|
  {
    if es != [] {
      StepKeeps(w, es[0]);
      StepKeepsTenant(w, es[0], i);
      RunKeepsTenant(StepWorld(w, es[0]), es[1..], i, tuple, synSeq);
    }
  }

  function Least(a: nat, b: nat): nat { if a <= b then a else b }

  /** In every reachable state: when a SYN opens slot i, then whatever the slot's last tenancy wrote and
      whatever the new one writes, at any time of its life, occupy exactly the numbers of the shorter of
      them in common; so they share some exactly if both have used any. */
  lemma ReuseOverlaps(w: World, p: TcpPacket, es: seq<Event>, i: nat)
    requires Inv(w) && i < MAX_TCP_CONNS && IsSyn(Arrive(p)) && Who(w.tun, Arrive(p)) == Some(i)
    requires SameTenant(StepWorld(w, Arrive(p)), es, i)
    ensures var before := w.ten[i];
            var after := RunWorld(StepWorld(w, Arrive(p)), es).ten[i];
            && !Live(before) && OpenedBy(after, TupleOfPacket(p), p.seqNo)
            && (forall n: u32 :: Occupies(before, n) && Occupies(after, n)
                                 <==> Ahead(Isn(i), n) < Least(Used(before), Used(after)))
            && ((exists n: u32 :: Occupies(before, n) && Occupies(after, n)) <==> Used(before) > 0 && Used(after) > 0)
  {
    var w1 := StepWorld(w, Arrive(p));
    StepKeeps(w, Arrive(p));
    OpensFreeSlot(w, p, i);
    RunKeepsTenant(w1, es, i, TupleOfPacket(p), p.seqNo);
    assert SlotInv(i, w.tun.conns[i], w.tun.age[i], w.ten[i]);
    var w2 := RunWorld(w1, es);
    assert SlotInv(i, w2.tun.conns[i], w2.tun.age[i], w2.ten[i]);
    SharedNumbers(i, w.ten[i], w2.ten[i]);
  }

  lemma OpensFreeSlot(w: World, p: TcpPacket, i: nat)
    requires Inv(w) && IsSyn(Arrive(p)) && Who(w.tun, Arrive(p)) == Some(i)
    ensures !Live(w.ten[i]) && OpenedBy(StepWorld(w, Arrive(p)).ten[i], TupleOfPacket(p), p.seqNo)
  {
    assert SlotInv(i, w.tun.conns[i], w.tun.age[i], w.ten[i]);
    assert Matches(w.tun.conns[i], Free);
  }

  lemma SharedNumbers(i: nat, a: Tenancy, b: Tenancy)
    requires WrittenInv(i, a) && WrittenInv(i, b)
    ensures forall n: u32 :: Occupies(a, n) && Occupies(b, n) <==> Ahead(Isn(i), n) < Least(Used(a), Used(b))
    ensures (exists n: u32 :: Occupies(a, n) && Occupies(b, n)) <==> Used(a) > 0 && Used(b) > 0
  {
    forall n: u32 ensures Occupies(a, n) <==> Ahead(Isn(i), n) < Used(a) { OccupiesExactly(i, a, n); }
    forall n: u32 ensures Occupies(b, n) <==> Ahead(Isn(i), n) < Used(b) { OccupiesExactly(i, b, n); }
    assert Ahead(Isn(i), Isn(i)) == 0;
  }

  // ----- the age a tenancy inherits -----

  /** n sweeps in a row. */
  function SweepsWorld(w: World, n: nat): (w': World)
    requires Sized(w.tun) && |w.ten| == MAX_TCP_CONNS
    ensures Sized(w'.tun) && |w'.ten| == MAX_TCP_CONNS
  {
    if n == 0 then w else StepWorld(SweepsWorld(w, n - 1), Sweep)
  }

  /** The waiting tenancy h has become h' through n sweeps: it waits on exactly through 30, counted from the
      age its slot had when it was opened, and is then closed. */
  predicate Waited(h: Tenancy, h': Tenancy, n: nat) {
    && (StateOf(h') == SynRcvd <==> h.age0 + h.sweeps + n <= SYN_RCVD_MAX_AGE)
    && (StateOf(h') == SynRcvd ==> h'.age0 == h.age0 && h'.sweeps == h.sweeps + n)
    && (StateOf(h') != SynRcvd ==> StateOf(h') == Closed)
  }

  lemma WaitedNot(w: World, i: nat)
    requires Inv(w) && i < MAX_TCP_CONNS && StateOf(w.ten[i]) == SynRcvd
    ensures Waited(w.ten[i], w.ten[i], 0)
  {
    assert SlotInv(i, w.tun.conns[i], w.tun.age[i], w.ten[i]);
  }

  lemma WaitedOnce(h: Tenancy, h': Tenancy, n: nat, i: nat, out: seq<Out>)
    requires Waited(h, h', n)
    ensures Waited(h, Recorded(i, h', SawSweep(h'), out), n + 1)
  {
  }

  /** A waiting tenancy lasts exactly that long. */
  lemma {:induction false} WaitsExactly(w: World, i: nat, n: nat)
    requires Inv(w) && i < MAX_TCP_CONNS && StateOf(w.ten[i]) == SynRcvd
    ensures Waited(w.ten[i], SweepsWorld(w, n).ten[i], n)
  {
    if n == 0 {
      WaitedNot(w, i);
    } else {
      var w' := SweepsWorld(w, n - 1);
      WaitsExactly(w, i, n - 1);
      WaitedOnce(w.ten[i], w'.ten[i], n - 1, i, Step(w'.tun, Sweep).out);
    }
  }

  // ----- a run that shows both -----

  /** Only slot 0 may be in use. */
  ghost predicate Lone(w: World) {
    Inv(w) && forall j | 0 < j < MAX_TCP_CONNS :: w.tun.conns[j].state == Closed
  }

  lemma LoneSyn(w: World, p: TcpPacket)
    requires Lone(w) && w.tun.conns[0].state == Closed && IsSyn(Arrive(p))
    ensures Who(w.tun, Arrive(p)) == Some(0)
    ensures var w' := StepWorld(w, Arrive(p));
            var h := w'.ten[0];
            && Lone(w') && StateOf(h) == SynRcvd && Used(h) == 0
            && h.age0 == w.tun.age[0] && h.sweeps == 0 && w'.tun.age == w.tun.age
  {
    assert Matches(w.tun.conns[0], Free);
    assert forall j | 0 <= j < MAX_TCP_CONNS :: !Matches(w.tun.conns[j], TupleOfPacket(p));
    StepKeeps(w, Arrive(p));
  }

  lemma LoneSweep(w: World)
    requires Lone(w) && StateOf(w.ten[0]) == SynRcvd && w.ten[0].age0 + w.ten[0].sweeps < SYN_RCVD_MAX_AGE
    ensures var w' := StepWorld(w, Sweep);
            var h := w'.ten[0];
            && Lone(w') && StateOf(h) == SynRcvd && Used(h) == Used(w.ten[0])
            && h.age0 == w.ten[0].age0 && w'.tun.age[0] == h.age0 + h.sweeps && h.sweeps == w.ten[0].sweeps + 1
  {
    StepKeeps(w, Sweep);
    forall j | 0 < j < MAX_TCP_CONNS ensures StepWorld(w, Sweep).tun.conns[j].state == Closed {
      OtherSlotsUnchanged(w.tun, Sweep, j);
    }
    var w' := StepWorld(w, Sweep);
    assert SlotInv(0, w'.tun.conns[0], w'.tun.age[0], w'.ten[0]);
  }

  const SID0: u16 := STREAM_ID_BASE

  lemma LoneWho(w: World)
    requires Lone(w) && Live(w.ten[0])
    ensures Find(w.tun.conns, BySid(SID0), 0) == Some(0)
  {
    LookupsAgree(w, 0, ByTuple(NO_ADDR, 0, NO_ADDR, 0), SID0);
  }

  lemma LoneOpenAck(w: World)
    requires Lone(w) && StateOf(w.ten[0]) == SynRcvd
    ensures var w' := StepWorld(w, OnOpenAck(SID0, 0));
            && Lone(w') && StateOf(w'.ten[0]) == SynRcvd && Used(w'.ten[0]) == Used(w.ten[0]) + 1
            && w'.tun.age == w.tun.age
  {
    LoneWho(w);
    EventKeeps(w, OnOpenAck(SID0, 0), 0);
    StepKeeps(w, OnOpenAck(SID0, 0));
  }

  lemma LoneRst(w: World)
    requires Lone(w) && Live(w.ten[0])
    ensures var w' := StepWorld(w, OnRst(SID0));
            Lone(w') && w'.tun.conns[0].state == Closed && Used(w'.ten[0]) == Used(w.ten[0]) && w'.tun.age == w.tun.age
  {
    LoneWho(w);
    EventKeeps(w, OnRst(SID0), 0);
    StepKeeps(w, OnRst(SID0));
  }

  lemma RunWorldCons(w: World, e: Event, es: seq<Event>)
    requires Sized(w.tun) && |w.ten| == MAX_TCP_CONNS
    ensures RunWorld(w, [e] + es) == RunWorld(StepWorld(w, e), es)
  {
    assert ([e] + es)[1..] == es;
  }

  /** One tenancy of slot 0: opened, seen waiting by a sweep, answered, reset by the peer. */
  function FirstTenancy(p: TcpPacket): seq<Event> {
    [Arrive(p)] + ([Sweep] + ([OnOpenAck(SID0, 0)] + [OnRst(SID0)]))
  }

  lemma FirstTenancyRuns(w: World, p: TcpPacket)
    requires Sized(w.tun) && |w.ten| == MAX_TCP_CONNS
    ensures RunWorld(w, FirstTenancy(p))
         == StepWorld(StepWorld(StepWorld(StepWorld(w, Arrive(p)), Sweep), OnOpenAck(SID0, 0)), OnRst(SID0))
  {
    var w1 := StepWorld(w, Arrive(p));
    var w2 := StepWorld(w1, Sweep);
    var ack, rst := OnOpenAck(SID0, 0), OnRst(SID0);
    RunWorldCons(w, Arrive(p), [Sweep] + ([ack] + [rst]));
    RunWorldCons(w1, Sweep, [ack] + [rst]);
    RunWorldCons(w2, ack, [rst]);
    assert [rst] + [] == [rst];
    RunWorldCons(StepWorld(w2, ack), rst, []);
  }

  lemma SynThenSweep(w: World, p: TcpPacket)
    requires IsSyn(Arrive(p)) && Lone(w) && w.tun.conns[0].state == Closed && w.tun.age[0] == 0
    ensures var w' := StepWorld(StepWorld(w, Arrive(p)), Sweep);
            Lone(w') && StateOf(w'.ten[0]) == SynRcvd && Used(w'.ten[0]) == 0 && w'.tun.age[0] == 1
  {
    LoneSyn(w, p);
    LoneSweep(StepWorld(w, Arrive(p)));
  }

  lemma AckThenRst(w: World)
    requires Lone(w) && StateOf(w.ten[0]) == SynRcvd
    ensures var w' := StepWorld(StepWorld(w, OnOpenAck(SID0, 0)), OnRst(SID0));
            && Lone(w') && w'.tun.conns[0].state == Closed && Used(w'.ten[0]) == Used(w.ten[0]) + 1
            && w'.tun.age == w.tun.age
  {
    LoneOpenAck(w);
    LoneRst(StepWorld(w, OnOpenAck(SID0, 0)));
  }

  lemma AfterFirst(w: World, p: TcpPacket)
    requires IsSyn(Arrive(p)) && Lone(w) && w.tun.conns[0].state == Closed && w.tun.age[0] == 0
    ensures var w' := RunWorld(w, FirstTenancy(p));
            Lone(w') && w'.tun.conns[0].state == Closed && Used(w'.ten[0]) == 1 && w'.tun.age[0] == 1
  {
    FirstTenancyRuns(w, p);
    SynThenSweep(w, p);
    AckThenRst(StepWorld(StepWorld(w, Arrive(p)), Sweep));
  }

  /** Both happen, to two tenancies of the very same connection: from the empty table, the second SYN
      finds its slot aged 1, so it waits through 29 sweeps instead of 30, and once it is answered its
      SYN-ACK carries the sequence number the first tenancy's SYN-ACK had. */
  lemma ReuseRun(p: TcpPacket)
    requires IsSyn(Arrive(p))
    ensures var w := RunWorld(START, FirstTenancy(p));
            var w1 := StepWorld(w, Arrive(p));
            var w2 := StepWorld(w1, OnOpenAck(SID0, 0));
            && StateOf(SweepsWorld(StepWorld(START, Arrive(p)), 30).ten[0]) == SynRcvd
            && StateOf(SweepsWorld(w1, 29).ten[0]) == SynRcvd && StateOf(SweepsWorld(w1, 30).ten[0]) == Closed
            && Occupies(w.ten[0], Isn(0)) && Occupies(w2.ten[0], Isn(0))
  {
    var w := RunWorld(START, FirstTenancy(p));
    var w1 := StepWorld(w, Arrive(p));
    var w2 := StepWorld(w1, OnOpenAck(SID0, 0));
    StartInv();
    AfterFirst(START, p);
    LoneSyn(START, p);
    LoneSyn(w, p);
    LoneOpenAck(w1);
    WaitsThirty(START, p);
    WaitsThirty(w, p);
    assert SlotInv(0, w.tun.conns[0], w.tun.age[0], w.ten[0]) && SlotInv(0, w2.tun.conns[0], w2.tun.age[0], w2.ten[0]);
    OccupiesExactly(0, w.ten[0], Isn(0));
    OccupiesExactly(0, w2.ten[0], Isn(0));
  }

  lemma WaitsThirty(w: World, p: TcpPacket)
    requires Lone(w) && w.tun.conns[0].state == Closed && IsSyn(Arrive(p)) && w.tun.age[0] <= 1
    ensures var w1 := StepWorld(w, Arrive(p));
            && StateOf(SweepsWorld(w1, 29).ten[0]) == SynRcvd
            && StateOf(SweepsWorld(w1, 30).ten[0]) == if w.tun.age[0] == 0 then SynRcvd else Closed
  {
    var n := SYN_RCVD_MAX_AGE;
    LoneSyn(w, p);
    WaitsExactly(StepWorld(w, Arrive(p)), 0, n - 1);
    WaitsExactly(StepWorld(w, Arrive(p)), 0, n);
  }
}
