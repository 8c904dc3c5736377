/** One stream on the link: the bytes accepted of it, and when a message is refused. */
module LinkStream {
  import opened Bytes
  import opened Frame
  import opened MuxSpec
  import opened MuxSession
  import opened LongFrames
  import E = EndToEnd
  import SQ = SendQueueSpec

  /** The bytes of the TCP_DATA messages on stream sid since the last OPEN on it. */
  function StreamBytes(ms: seq<Message>, sid: u16): seq<byte> {
    if ms == [] then []
    else
      var m := ms[|ms| - 1];
      if StreamOf(m) == sid && m.TcpOpen? then []
      else StreamBytes(ms[..|ms| - 1], sid) + if StreamOf(m) == sid && m.TcpData? then m.data else []
  }

  lemma StreamBytesSnoc(ms: seq<Message>, m: Message, sid: u16)
    ensures StreamBytes(ms + [m], sid) ==
            if StreamOf(m) == sid && m.TcpOpen? then []
            else StreamBytes(ms, sid) + if StreamOf(m) == sid && m.TcpData? then m.data else []
  {
    assert (ms + [m])[..|ms|] == ms;
  }

  predicate Opens(ms: seq<Message>, sid: u16) { exists m <- ms :: m.TcpOpen? && m.sid == sid }

  /** Messages without an OPEN only add to a stream. */
  lemma {:induction false} StreamGrows(ms: seq<Message>, more: seq<Message>, sid: u16)
    requires !Opens(more, sid)
    ensures StreamBytes(ms, sid) <= StreamBytes(ms + more, sid)
    decreases |more|
  {
    if more == [] {
      assert ms + more == ms;
    } else {
      var n := |more| - 1;
      StreamGrows(ms, more[..n], sid);
      StreamBytesSnoc(ms + more[..n], more[n], sid);
      assert more[n] in more;
      AppendLast(ms, more);
    }
  }

  lemma AppendLast(ms: seq<Message>, more: seq<Message>)
    requires more != []
    ensures ms + more == ms + more[..|more| - 1] + [more[|more| - 1]]
  {
  }

  // ----- refusals -----

  /** When mux_write_rfcomm refuses a frame with m's payload: the channel is closed, RFCOMM fails with
      nothing queued, or the frame has to be queued and the ring is full or its entries are too short. */
  predicate Refused(q: SQ.Queue, m: Message, rc: SQ.Answer) {
    || q.cid == 0
    || (q.frames == [] && rc == SQ.Failed)
    || (!(q.frames == [] && rc == SQ.Accepted)
        && (|q.frames| >= SQ.SEND_Q_DEPTH - 1 || !Sendable(m)
            || FRAME_HEADER_SIZE + |PayloadBytes(m)| > SQ.SEND_Q_BYTES))
  }

  /** A sender fails exactly then. */
  lemma RefusedExactly(q: SQ.Queue, m: Message, rc: SQ.Answer)
    requires Sendable(m)
    ensures SendStep(q, m, rc).1 != 0 <==> Refused(q, m, rc)
    ensures Refused(q, m, rc) ==> SendStep(q, m, rc).0 == q
  {
  }

  /** Everything accepted can also go out whole. */
  ghost predicate LinkInv(s: E.Side) { E.SideInv(s) && forall m <- s.msgs :: Intact(m) }

  lemma SendNotes(s: E.Side, m: Message, rc: SQ.Answer)
    requires LinkInv(s) && Sendable(m) && Intact(m)
    ensures var s' := E.StepSide(s, E.Send(m, rc));
            LinkInv(s') && s'.msgs == if Refused(s.q, m, rc) then s.msgs else s.msgs + [m]
  {
    E.SendKeeps(s, m, rc);
    RefusedExactly(s.q, m, rc);
  }
}
