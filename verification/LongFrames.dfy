/** What rfcomm_send's 16-bit length does to long frames, and to every frame sent after one. */
module LongFrames {
  import opened Bytes
  import opened Frame
  import opened MuxSpec
  import opened MuxSession
  import KotlinFrame
  import SQ = SendQueueSpec

  /** The longest payload whose frame's length still fits rfcomm_send's uint16_t. */
  const LONGEST_INTACT := 65529

  predicate Intact(m: Message) { Sendable(m) ==> |PayloadBytes(m)| <= LONGEST_INTACT }

  /** A frame is handed to RFCOMM whole exactly if its payload is at most 65529 bytes; of a longer one
      at most five bytes are. Alone on the wire, it is received exactly if it is whole. */
  lemma IntactExactly(m: Message)
    requires Sendable(m)
    ensures SQ.Cast16(Encode(m)) == Encode(m) <==> Intact(m)
    ensures !Intact(m) ==> |SQ.Cast16(Encode(m))| < FRAME_HEADER_SIZE && Receivable(m)
    ensures Receivable(m) ==> (Parse(SQ.Cast16(Encode(m))).msgs == [m] <==> Intact(m))
  {
    var f := Encode(m);
    CastIntact(f);
    if Intact(m) {
      assert f + [] == f;
      ParseOne(m, []);
    }
  }

  lemma CastIntact(f: seq<byte>)
    requires |f| <= FRAME_HEADER_SIZE + FRAME_MAX_PAYLOAD
    ensures SQ.Cast16(f) == f <==> |f| <= FRAME_HEADER_SIZE + LONGEST_INTACT
    ensures |f| > FRAME_HEADER_SIZE + LONGEST_INTACT ==> |SQ.Cast16(f)| == |f| - 0x1_0000 < FRAME_HEADER_SIZE
  {
  }

  /** A longer frame is reported as written exactly if the channel is open, nothing is queued and RFCOMM
      accepts the call; it is never queued, and otherwise nothing happens. */
  lemma LongFrameReported(q: SQ.Queue, m: Message, rc: SQ.Answer)
    requires Sendable(m) && !Intact(m)
    ensures var (q', r) := SendStep(q, m, rc);
            && (r == 0 <==> q.cid != 0 && q.frames == [] && rc == SQ.Accepted)
            && q'.wire == (if r == 0 then q.wire + [Encode(m)[..|PayloadBytes(m)| - LONGEST_INTACT - 1]] else q.wire)
            && (r != 0 ==> q' == q)
  {
    CastIntact(Encode(m));
  }

  // ----- what a list of sent messages looks like on the wire -----

  /** The bytes RFCOMM gets for ms. */
  function WireOf(ms: seq<Message>): seq<byte>
    requires forall m <- ms :: Sendable(m)
  {
    if ms == [] then [] else SQ.Cast16(Encode(ms[0])) + WireOf(ms[1..])
  }

  lemma {:induction false} WireOfAppend(ms: seq<Message>, ns: seq<Message>)
    requires (forall m <- ms :: Sendable(m)) && (forall m <- ns :: Sendable(m))
    ensures (forall m <- ms + ns :: Sendable(m)) && WireOf(ms + ns) == WireOf(ms) + WireOf(ns)
  {
    if ms == [] {
      assert ms + ns == ns;
    } else {
      assert (ms + ns)[1..] == ms[1..] + ns;
      WireOfAppend(ms[1..], ns);
    }
  }

  /** A frame delivered as m has the bytes of m's own frame, but for the absent reason of a BYE or RST. */
  lemma DeliveredSize(s: seq<byte>, m: Message)
    requires HasFrame(s) && DispatchHead(s) == Deliver(m)
    ensures Sendable(m) && Receivable(m)
    ensures FrameSize(s) < |Encode(m)| ==> (m.Bye? || m.TcpRst?) && m.reason == 0 && FrameSize(s) >= FRAME_HEADER_SIZE
    ensures !Intact(m) ==> FrameSize(s) >= |Encode(m)|
  {
    DeliveredIsCarried(DecodeHeader(s), s[FRAME_HEADER_SIZE..FrameSize(s)]);
  }

  /** The frame of a BYE or RST without reason, read one or two bytes late, is not that frame. */
  lemma LateFrame(m: Message, more: seq<byte>, skew: nat)
    requires (m.Bye? || m.TcpRst?) && m.reason == 0 && 0 < skew <= 2
    ensures var s := (Encode(m) + more)[skew..]; HasFrame(s) ==> DispatchHead(s) != Deliver(m)
  {
    var f := Encode(m);
    var s := (f + more)[skew..];
    assert f == [PROTO_VERSION, Kind(m)] + U16Be(StreamOf(m)) + [0, 2, 0, 0];
    if skew == 1 {
      assert s[0] == Kind(m);
    } else {
      assert s[0] == StreamOf(m) / 0x100 && s[1] == StreamOf(m) % 0x100 && ReadU16(s, 2) == 2 && ReadU16(s, 4) == 0;
    }
  }

  /** Reading m with s, which starts skew bytes late or begins with m's cut frame, leaves the reader late. */
  lemma SkewStays(m: Message, more: seq<byte>, skew: nat, s: seq<byte>)
    requires Sendable(m) && (skew == 0 ==> !Intact(m))
    requires skew <= |SQ.Cast16(Encode(m)) + more| && s == (SQ.Cast16(Encode(m)) + more)[skew..]
    requires HasFrame(s) && DispatchHead(s) == Deliver(m)
    ensures var late := skew + FrameSize(s) - |SQ.Cast16(Encode(m))|;
            0 < late <= |more| && s[FrameSize(s)..] == more[late..]
  {
    DeliveredSize(s, m);
    CastIntact(Encode(m));
    if FrameSize(s) < |Encode(m)| && skew <= 2 {
      LateFrame(m, more, skew);
    }
  }

  /** What a parse that delivers ms has to do first. */
  lemma HeadOf(s: seq<byte>, ms: seq<Message>)
    requires ms != [] && Parse(s).msgs == ms
    ensures HasFrame(s) && DispatchHead(s) == Deliver(ms[0])
    ensures Parse(s[FrameSize(s)..]) == Parse(s).(msgs := ms[1..])
  {
  }

  lemma WireHead(ms: seq<Message>, tail: seq<byte>)
    requires ms != [] && forall m <- ms :: Sendable(m)
    ensures WireOf(ms) + tail == SQ.Cast16(Encode(ms[0])) + (WireOf(ms[1..]) + tail)
  {
  }

  /** Once out of step, always out of step: a reader that starts skew bytes late and still gets all of
      ms ends behind the end of their frames. */
  lemma {:induction false} SkewForever(ms: seq<Message>, tail: seq<byte>, skew: nat, s: seq<byte>)
    requires (forall m <- ms :: Sendable(m)) && 0 < skew <= |WireOf(ms) + tail| && s == (WireOf(ms) + tail)[skew..]
    requires Parse(s).msgs == ms
    ensures |Parse(s).rest| < |tail|
    decreases |ms|
  {
    if ms != [] {
      WireHead(ms, tail);
      HeadOf(s, ms);
      SkewStays(ms[0], WireOf(ms[1..]) + tail, skew, s);
      SkewForever(ms[1..], tail, skew + FrameSize(s) - |SQ.Cast16(Encode(ms[0]))|, s[FrameSize(s)..]);
    } else {
      ParseRest(s);
    }
  }

  // ----- exactly when everything arrives -----

  /** A reader that gets all of ms ends behind the end of their frames if one of them was not whole. */
  lemma {:induction false} Derailed(ms: seq<Message>, tail: seq<byte>, s: seq<byte>)
    requires (forall m <- ms :: Sendable(m)) && s == WireOf(ms) + tail && Parse(s).msgs == ms
    requires exists m <- ms :: !Intact(m)
    ensures |Parse(s).rest| < |tail|
    decreases |ms|
  {
    var m, more := ms[0], WireOf(ms[1..]) + tail;
    WireHead(ms, tail);
    HeadOf(s, ms);
    if Intact(m) {
      IntactExactly(m);
      WholeHead(m, more);
      Derailed(ms[1..], tail, more);
    } else {
      CutHead(ms, tail, s);
    }
  }

  lemma CutHead(ms: seq<Message>, tail: seq<byte>, s: seq<byte>)
    requires (forall m <- ms :: Sendable(m)) && s == WireOf(ms) + tail && Parse(s).msgs == ms
    requires ms != [] && !Intact(ms[0])
    ensures |Parse(s).rest| < |tail|
  {
    WireHead(ms, tail);
    HeadOf(s, ms);
    assert s[0..] == s;
    SkewStays(ms[0], WireOf(ms[1..]) + tail, 0, s);
    SkewForever(ms[1..], tail, FrameSize(s) - |SQ.Cast16(Encode(ms[0]))|, s[FrameSize(s)..]);
  }

  lemma WholeHead(m: Message, more: seq<byte>)
    requires Sendable(m)
    ensures var s := Encode(m) + more; HasFrame(s) && s[FrameSize(s)..] == more
  {
    FrameRoundTrip(m);
    HeadStable(Encode(m), more);
  }

  lemma HeadAndRest(ms: seq<Message>)
    requires ms != []
    ensures [ms[0]] + ms[1..] == ms
  {
  }

  lemma {:induction false} ReadsWhole(ms: seq<Message>, tail: seq<byte>)
    requires forall m <- ms :: Sendable(m) && Receivable(m) && Intact(m)
    ensures Parse(WireOf(ms) + tail) == After(ms, Parse(tail))
  {
    if ms == [] {
      assert WireOf(ms) + tail == tail;
      AfterNothing(Parse(tail));
    } else {
      IntactExactly(ms[0]);
      WireHead(ms, tail);
      ParseOne(ms[0], WireOf(ms[1..]) + tail);
      ReadsWhole(ms[1..], tail);
      AfterAfter([ms[0]], ms[1..], Parse(tail));
      HeadAndRest(ms);
    }
  }

  /** The first message this receiver refuses, if there is one, ends the parse where its frame begins. */
  lemma RefusedHead(ms: seq<Message>)
    requires (forall m <- ms :: Sendable(m)) && (ms == [] || !Receivable(ms[0]))
    ensures Parse(WireOf(ms)) == Parsed([], WireOf(ms), if ms == [] then None else Some(UnexpectedFrame))
  {
    if ms != [] {
      IntactExactly(ms[0]);
      ParseOne(ms[0], WireOf(ms[1..]));
    }
  }

  lemma ReceivedUpTo(a: seq<Message>, b: seq<Message>)
    requires (forall m <- a :: Sendable(m) && Receivable(m)) && (forall m <- b :: Sendable(m))
    requires b == [] || !Receivable(b[0])
    ensures var p := Parse(WireOf(a) + WireOf(b));
            && (p.msgs == a && p.rest == WireOf(b) <==> forall m <- a :: Intact(m))
            && ((forall m <- a :: Intact(m)) ==> p.violation == if b == [] then None else Some(UnexpectedFrame))
  {
    var s := WireOf(a) + WireOf(b);
    if forall m <- a :: Intact(m) {
      ReadsWhole(a, WireOf(b));
      RefusedHead(b);
      assert a + [] == a;
    } else if Parse(s).msgs == a {
      Derailed(a, WireOf(b), s);
    }
  }

  /** A reader gets exactly the messages up to the first it refuses, and stops at that one's frame (or
      at the end), exactly if each of them went out whole. */
  lemma ReceivedExactly(ms: seq<Message>)
    requires forall m <- ms :: Sendable(m)
    ensures var n := ReceivablePrefix(ms);
            var p := Parse(WireOf(ms));
            && (p.msgs == ms[..n] && p.rest == WireOf(ms[n..]) <==> forall m <- ms[..n] :: Intact(m))
            && ((forall m <- ms[..n] :: Intact(m)) ==> p.violation == if n < |ms| then Some(UnexpectedFrame) else None)
  {
    WireSplits(ms);
    ReceivedUpTo(ms[..ReceivablePrefix(ms)], ms[ReceivablePrefix(ms)..]);
  }

  lemma WireSplits(ms: seq<Message>)
    requires forall m <- ms :: Sendable(m)
    ensures var n := ReceivablePrefix(ms); WireOf(ms) == WireOf(ms[..n]) + WireOf(ms[n..])
  {
    var n := ReceivablePrefix(ms);
    assert ms[..n] + ms[n..] == ms;
    WireOfAppend(ms[..n], ms[n..]);
  }

  // ----- the Kotlin reader -----

  /** A clean end accounts for every byte. */
  lemma {:induction false} CleanReadSize(s: seq<byte>, ms: seq<Message>)
    requires (forall m <- ms :: Sendable(m)) && KotlinFrame.ReadAll(s) == (KotlinFrame.RawAll(ms), true)
    ensures |s| == |EncodeAll(ms)|
    decreases |s|
  {
    match KotlinFrame.Read(s)
    case EndOfStream =>
    case Truncated =>
    case GotFrame(f, rest) =>
      assert f == KotlinFrame.RawOf(ms[0]) && KotlinFrame.RawAll(ms)[1..] == KotlinFrame.RawAll(ms[1..]);
      CleanReadSize(rest, ms[1..]);
  }

  lemma {:induction false} WireSize(ms: seq<Message>)
    requires forall m <- ms :: Sendable(m)
    ensures |WireOf(ms)| <= |EncodeAll(ms)|
    ensures WireOf(ms) == EncodeAll(ms) <==> forall m <- ms :: Intact(m)
    ensures WireOf(ms) != EncodeAll(ms) ==> |WireOf(ms)| < |EncodeAll(ms)|
  {
    if ms != [] {
      WireSize(ms[1..]);
      CastIntact(Encode(ms[0]));
      AllIntact(ms);
      assert SQ.Cast16(Encode(ms[0])) == Encode(ms[0]) <==> Intact(ms[0]);
      SameHead(SQ.Cast16(Encode(ms[0])), Encode(ms[0]), WireOf(ms[1..]), EncodeAll(ms[1..]));
    }
  }

  lemma AllIntact(ms: seq<Message>)
    requires ms != []
    ensures (forall m <- ms :: Intact(m)) <==> Intact(ms[0]) && forall m <- ms[1..] :: Intact(m)
  {
    assert ms == [ms[0]] + ms[1..];
  }

  lemma SameHead(a: seq<byte>, b: seq<byte>, s: seq<byte>, t: seq<byte>)
    requires |a| <= |b| && |s| <= |t| && (a != b ==> |a| < |b|) && (s != t ==> |s| < |t|)
    ensures a + s == b + t <==> a == b && s == t
    ensures a + s != b + t ==> |a + s| < |b + t|
  {
  }

  /** The Kotlin reader, which takes every kind, reads exactly the sent frames to a clean end exactly if
      all of them went out whole. */
  lemma KotlinReadsExactly(ms: seq<Message>)
    requires forall m <- ms :: Sendable(m)
    ensures KotlinFrame.ReadAll(WireOf(ms)) == (KotlinFrame.RawAll(ms), true) <==> forall m <- ms :: Intact(m)
  {
    WireSize(ms);
    KotlinFrame.KotlinReadsWhatCSends(ms);
    if KotlinFrame.ReadAll(WireOf(ms)) == (KotlinFrame.RawAll(ms), true) {
      CleanReadSize(WireOf(ms), ms);
    }
  }
}
