/** The read loop of divert.c in front of the link: unlike the shim, it ends the stream when the mux
    refuses its bytes. */
module DivertFarEnd {
  import opened Bytes
  import opened Frame
  import opened MuxSpec
  import opened LongFrames
  import opened LinkStream
  import opened DivertTable
  import E = EndToEnd
  import SQ = SendQueueSpec

  const READ_BUF := 2048

  /** What read may answer: a chunk has at least one byte and fits the buffer. */
  predicate Readable(input: seq<Read>) {
    forall k | 0 <= k < |input| && input[k].Chunk? :: 0 < |input[k].data| <= READ_BUF
  }

  /** The answers the loop sees when the link decides what is sent, rfcomm_send answering from rcs; and the
      link after the chunks it offers. */
  function Linked(s: E.Side, sid: u16, input: seq<Read>, rcs: seq<SQ.Answer>, k: nat): (seq<Read>, E.Side)
    decreases |input|
  {
    if input == [] then ([], s)
    else if input[0].ReadInterrupted? then
      (var r := Linked(s, sid, input[1..], rcs, k);
       ([input[0]] + r.0, r.1))
    else if !input[0].Chunk? then ([input[0]], s)
    else
      var m, rc := TcpData(sid, input[0].data), SQ.AnswerAt(rcs, k);
      var s' := E.StepSide(s, E.Send(m, rc));
      if Refused(s.q, m, rc) then ([Chunk(m.data, false)], s')
      else
        var r := Linked(s', sid, input[1..], rcs, k + 1);
        ([Chunk(m.data, true)] + r.0, r.1)
  }

  /** The bytes of the chunks that were sent. */
  function SentBytes(seen: seq<Read>): seq<byte> { ChunkBytes(seen[..Upto(seen)]) }

  lemma SentOn(r: Read, seen: seq<Read>)
    requires GoesOn(r)
    ensures SentBytes([r] + seen) == BytesOf(Some(r)) + SentBytes(seen)
    ensures LastAnswer([r] + seen) == LastAnswer(seen)
  {
    var all := [r] + seen;
    assert all[1..] == seen;
    assert all[..Upto(all)][1..] == seen[..Upto(seen)];
  }

  lemma SentLast(r: Read)
    requires !GoesOn(r)
    ensures SentBytes([r]) == [] && LastAnswer([r]) == Some(r)
  {
  }

  /** From side s on, the stream got the bytes sent, ending in side end; a chunk that ends the loop has some. */
  ghost predicate Gets(s: E.Side, sid: u16, seen: seq<Read>, end: E.Side) {
    && LinkInv(end) && StreamBytes(end.msgs, sid) == StreamBytes(s.msgs, sid) + SentBytes(seen)
    && (BytesOf(LastAnswer(seen)) != [] <==> Refuses(LastAnswer(seen)))
  }

  predicate Refuses(last: Option<Read>) { last.Some? && last.value.Chunk? }

  lemma GetsLast(s: E.Side, sid: u16, r: Read, end: E.Side)
    requires LinkInv(end) && !GoesOn(r) && StreamBytes(end.msgs, sid) == StreamBytes(s.msgs, sid)
    requires r.Chunk? ==> r.data != []
    ensures Gets(s, sid, [r], end)
  {
    SentLast(r);
    assert StreamBytes(s.msgs, sid) + [] == StreamBytes(s.msgs, sid);
  }

  lemma GetsOn(s: E.Side, s': E.Side, sid: u16, r: Read, seen: seq<Read>, end: E.Side)
    requires GoesOn(r) && Gets(s', sid, seen, end)
    requires StreamBytes(s'.msgs, sid) == StreamBytes(s.msgs, sid) + BytesOf(Some(r))
    ensures Gets(s, sid, [r] + seen, end)
  {
    SentOn(r, seen);
    Append3(StreamBytes(s.msgs, sid), BytesOf(Some(r)), SentBytes(seen));
  }

  lemma {:induction false} LinkGets(s: E.Side, sid: u16, input: seq<Read>, rcs: seq<SQ.Answer>, k: nat)
    requires LinkInv(s) && Readable(input) && sid != 0
    ensures var r := Linked(s, sid, input, rcs, k); Gets(s, sid, r.0, r.1)
    decreases |input|
  {
    assert StreamBytes(s.msgs, sid) + [] == StreamBytes(s.msgs, sid);
    if input == [] {
    } else if input[0].ReadInterrupted? {
      LinkGets(s, sid, input[1..], rcs, k);
      var r := Linked(s, sid, input[1..], rcs, k);
      GetsOn(s, s, sid, input[0], r.0, r.1);
    } else if !input[0].Chunk? {
      GetsLast(s, sid, input[0], s);
    } else {
      var m, rc := TcpData(sid, input[0].data), SQ.AnswerAt(rcs, k);
      var s' := E.StepSide(s, E.Send(m, rc));
      ChunkOffered(s, sid, m.data, rc);
      if Refused(s.q, m, rc) {
        GetsLast(s, sid, Chunk(m.data, false), s');
      } else {
        LinkGets(s', sid, input[1..], rcs, k + 1);
        var r := Linked(s', sid, input[1..], rcs, k + 1);
        GetsOn(s, s', sid, Chunk(m.data, true), r.0, r.1);
      }
    }
  }

  lemma ChunkOffered(s: E.Side, sid: u16, data: seq<byte>, rc: SQ.Answer)
    requires LinkInv(s) && 0 < |data| <= READ_BUF && sid != 0
    ensures var m := TcpData(sid, data);
            var s' := E.StepSide(s, E.Send(m, rc));
            && LinkInv(s')
            && StreamBytes(s'.msgs, sid) == StreamBytes(s.msgs, sid) + if Refused(s.q, m, rc) then [] else data
  {
    var m := TcpData(sid, data);
    assert StreamBytes(s.msgs, sid) + [] == StreamBytes(s.msgs, sid);
    SendNotes(s, m, rc);
    StreamBytesSnoc(s.msgs, m, sid);
  }

  /** The read loop with the link behind it, for any reads and any answers of RFCOMM: everything it read and
      offered is on the stream exactly if no chunk was refused; a refused one is the last it read, it is
      what is missing, and the loop frees the stream. */
  lemma NothingLostSilently(t: Tables, s: E.Side, sid: u16, input: seq<Read>, rcs: seq<SQ.Answer>)
    requires sid in t.tcp && sid != 0 && LinkInv(s) && Readable(input)
    ensures var (seen, s') := Linked(s, sid, input, rcs, 0);
            var r := ReadLoop(t, sid, seen, 0);
            var before, after := StreamBytes(s.msgs, sid), StreamBytes(s'.msgs, sid);
            && before + MuxData(r.out, sid) == after + BytesOf(LastAnswer(seen))
            && (before + MuxData(r.out, sid) == after <==> !Refuses(LastAnswer(seen)))
            && (Refuses(LastAnswer(seen)) ==> sid !in r.t.tcp)
  {
    var (seen, s') := Linked(s, sid, input, rcs, 0);
    LinkGets(s, sid, input, rcs, 0);
    ReadLoopForwards(t, sid, seen, 0);
    assert seen[0..] == seen;
    Append3(StreamBytes(s.msgs, sid), SentBytes(seen), BytesOf(LastAnswer(seen)));
  }

  lemma Append3(a: seq<byte>, b: seq<byte>, c: seq<byte>)
    ensures a + (b + c) == a + b + c && (a + b + c == a + b <==> c == [])
  {
  }
}
