/** Runs on which the id allocator of divert.c reports exhaustion with an id free. */
module DivertExhausted {
  import opened Bytes
  import opened Frame
  import opened Ipv4
  import opened DivertTable

  /** The ids 1 to n are in use, and the next is tried first. */
  ghost predicate FilledTo(t: Tables, n: nat) {
    t.nextId == n + 1 && forall id: u16 :: InUse(t, id) <==> 0 < id <= n
  }

  /** A connection whose OPEN is sent, or a packet from a source port without a stream. */
  predicate Opening(t: Tables, e: Event) {
    || (e.Accept? && e.orig.Some? && e.sent)
    || (e.UdpOut? && ParseUdp(e.packet).Some? && t.portToStream[ParseUdp(e.packet).value.srcPort] == 0)
  }

  /** Every event of es opens a stream. */
  predicate AllOpening(t: Tables, es: seq<Event>)
    decreases |es|
  {
    es == [] || (Opening(t, es[0]) && AllOpening(Step(t, es[0]).t, es[1..]))
  }

  lemma NextIdFree(t: Tables, n: nat)
    requires FilledTo(t, n) && n < PORTS - 1
    ensures AllocId(t) == n + 1
  {
    var left := |t.portToStream| - 1;
    assert Candidate(t, left) == n + 1;
  }

  lemma OpeningFills(t: Tables, n: nat, e: Event)
    requires FilledTo(t, n) && n < PORTS - 1 && Opening(t, e)
    ensures FilledTo(Step(t, e).t, n + 1)
  {
    NextIdFree(t, n);
    var t' := Step(t, e).t;
    assert forall id: u16 :: InUse(t', id) <==> InUse(t, id) || id == n + 1;
  }

  lemma {:induction false} AllOpeningFill(t: Tables, n: nat, es: seq<Event>)
    requires FilledTo(t, n) && n + |es| < PORTS && AllOpening(t, es)
    ensures FilledTo(Run(t, es), n + |es|)
    decreases |es|
  {
    if es != [] {
      OpeningFills(t, n, es[0]);
      AllOpeningFill(Step(t, es[0]).t, n + 1, es[1..]);
    }
  }

  lemma {:induction false} RunAppend(t: Tables, es: seq<Event>, e: Event)
    ensures Run(t, es + [e]) == Step(Run(t, es), e).t
    decreases |es|
  {
    if es == [] {
      assert [] + [e] == [e] && [e][1..] == [];
      assert Run(Step(t, e).t, []) == Step(t, e).t;
    } else {
      assert (es + [e])[1..] == es[1..] + [e];
      RunAppend(Step(t, es[0]).t, es[1..], e);
    }
  }

  /** The peer ends stream sid. */
  predicate Frees(t: Tables, e: Event, sid: u16) {
    (e == Rst(sid) && sid in t.tcp) || (e == UdpCloseIn(sid) && sid in t.udp)
  }

  lemma FreedIsFree(t: Tables, e: Event, sid: u16)
    requires Inv(t) && Frees(t, e, sid)
    ensures var t' := Step(t, e).t;
            t'.nextId == t.nextId && forall id: u16 :: InUse(t', id) <==> InUse(t, id) && id != sid
  {
  }

  /** After the last id was given out, only freeing that one leaves the allocator blind: it then reports
      exhaustion although the id is free; after freeing any other it finds the one freed. */
  lemma LastFreedIsMissed(t: Tables, e: Event, sid: u16)
    requires Inv(t) && FilledTo(t, PORTS - 1) && Frees(t, e, sid)
    ensures var t' := Step(t, e).t;
            !InUse(t', sid) && AllocId(t') == if sid == PORTS - 1 then 0 else sid
  {
    var t' := Step(t, e).t;
    FreedIsFree(t, e, sid);
    AllocExactly(t');
    assert Skipped(t') == PORTS - 1;
    assert forall id: u16 | id != 0 && id != sid :: InUse(t', id);
  }

  /** From the start: 65535 streams opened, by connections or packets, and an end of the last leave id
      65535 free and the allocator reporting that none is. */
  lemma ExhaustedWithOneFree(isTun: bool, es: seq<Event>, e: Event)
    requires |es| == PORTS - 1 && AllOpening(Fresh(isTun), es) && Frees(Run(Fresh(isTun), es), e, PORTS - 1)
    ensures var t := Run(Fresh(isTun), es + [e]);
            Inv(t) && !InUse(t, PORTS - 1) && AllocId(t) == 0
  {
    AllOpeningFill(Fresh(isTun), 0, es);
    RunAppend(Fresh(isTun), es, e);
    Reachable(isTun, es);
    LastFreedIsMissed(Run(Fresh(isTun), es), e, PORTS - 1);
    Reachable(isTun, es + [e]);
  }

  // ----- such a run without a single socket -----

  /** A packet without data from source port p to port 53. */
  function Query(src: Addr, dst: Addr, p: u16): Event { UdpOut(Ipv4.UdpPacket(src, p, dst, 53, 0, 64, [])) }

  lemma QueryParses(src: Addr, dst: Addr, p: u16)
    ensures var v := ParseUdp(Query(src, dst, p).packet); v.Some? && v.value.srcPort == p
  {
    var packet := Query(src, dst, p).packet;
    assert packet + [] == packet;
    UdpRoundTrip(src, p, dst, 53, 0, 64, [], []);
  }

  /** One query from each of n source ports from p on. */
  function Queries(src: Addr, dst: Addr, p: nat, n: nat): (es: seq<Event>)
    requires p + n <= PORTS
    ensures |es| == n
    decreases n
  {
    if n == 0 then [] else [Query(src, dst, p)] + Queries(src, dst, p + 1, n - 1)
  }

  lemma QueryOpens(t: Tables, src: Addr, dst: Addr, p: u16, n: nat)
    requires FilledTo(t, n) && n < PORTS - 1 && t.portToStream[p] == 0
    ensures var t' := Step(t, Query(src, dst, p)).t;
            && Opening(t, Query(src, dst, p)) && FilledTo(t', n + 1) && t'.tcp == t.tcp
            && t'.portToStream == t.portToStream[p := n + 1]
  {
    QueryParses(src, dst, p);
    OpeningFills(t, n, Query(src, dst, p));
    NextIdFree(t, n);
  }

  /** The ports from p on have no stream, the ids from k on are free. */
  ghost predicate Room(t: Tables, p: nat, n: nat, k: nat) {
    p + n <= PORTS && k + n < PORTS && FilledTo(t, k) && forall j | p <= j < p + n :: t.portToStream[j] == 0
  }

  lemma QueryLeavesRoom(t: Tables, src: Addr, dst: Addr, p: nat, n: nat, k: nat)
    requires Room(t, p, n, k) && n > 0
    ensures Opening(t, Query(src, dst, p)) && Room(Step(t, Query(src, dst, p)).t, p + 1, n - 1, k + 1)
  {
    QueryOpens(t, src, dst, p, k);
  }

  lemma {:induction false} QueriesOpen(t: Tables, src: Addr, dst: Addr, p: nat, n: nat, k: nat)
    requires Room(t, p, n, k)
    ensures AllOpening(t, Queries(src, dst, p, n))
    decreases n
  {
    if n > 0 {
      var e := Query(src, dst, p);
      QueryLeavesRoom(t, src, dst, p, n, k);
      QueriesOpen(Step(t, e).t, src, dst, p + 1, n - 1, k + 1);
      OpenFirst(t, e, Queries(src, dst, p + 1, n - 1));
    }
  }

  lemma OutKeepsTcp(t: Tables, packet: seq<byte>)
    ensures Step(t, UdpOut(packet)).t.tcp == t.tcp
  {
  }

  lemma {:induction false} RunKeepsTcp(t: Tables, es: seq<Event>)
    requires forall k | 0 <= k < |es| :: es[k].UdpOut?
    ensures Run(t, es).tcp == t.tcp
    decreases |es|
  {
    if es != [] {
      OutKeepsTcp(t, es[0].packet);
      assert forall k | 0 <= k < |es| - 1 :: es[1..][k] == es[k + 1];
      RunKeepsTcp(Step(t, es[0]).t, es[1..]);
    }
  }

  lemma {:induction false} QueriesAreOut(src: Addr, dst: Addr, p: nat, n: nat, k: nat)
    requires p + n <= PORTS && k < n
    ensures Queries(src, dst, p, n)[k].UdpOut?
    decreases n
  {
    if k > 0 {
      QueriesAreOut(src, dst, p + 1, n - 1, k - 1);
    }
  }

  lemma OpenFirst(t: Tables, e: Event, es: seq<Event>)
    ensures AllOpening(t, [e] + es) <==> Opening(t, e) && AllOpening(Step(t, e).t, es)
    ensures Run(t, [e] + es) == Run(Step(t, e).t, es)
  {
    assert ([e] + es)[1..] == es;
  }

  /** From the start: one packet from each of 65535 source ports, and the peer's close of the last stream. */
  lemma ExhaustedByQueries(isTun: bool, src: Addr, dst: Addr, last: u16)
    requires last == PORTS - 1
    ensures var t := Run(Fresh(isTun), Queries(src, dst, 0, last) + [UdpCloseIn(last)]);
            Inv(t) && !InUse(t, last) && AllocId(t) == 0
  {
    var es := Queries(src, dst, 0, last);
    QueriesOpen(Fresh(isTun), src, dst, 0, last, 0);
    forall k | 0 <= k < |es| ensures es[k].UdpOut? {
      QueriesAreOut(src, dst, 0, last, k);
    }
    RunKeepsTcp(Fresh(isTun), es);
    AllOpeningFill(Fresh(isTun), 0, es);
    assert InUse(Run(Fresh(isTun), es), last);
    ExhaustedWithOneFree(isTun, es, UdpCloseIn(last));
  }
}
