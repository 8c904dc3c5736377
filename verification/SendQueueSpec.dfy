/** The RFCOMM send queue of panctl/main.c as a state machine, and what all its runs keep. */
module SendQueueSpec {
  import opened Bytes

  const SEND_Q_DEPTH := 64
  const SEND_Q_BYTES := 1100

  /** rfcomm_send's return code: 0, one of the two back-pressure codes, or any other. */
  datatype Answer = Accepted | Backpressure | Failed

  /** What became of an accepted frame that is no longer queued: handed to RFCOMM, dropped by the
      drain loop on another code, or flushed when the channel closed. */
  datatype Fate = Sent | Dropped | Flushed

  /** The queue's variables, and the history of its run: every frame reported as written, the
      fates of the oldest of them, the bytes RFCOMM accepted, and the channel of the last
      can-send-now request that is still outstanding (0 if none is). */
  datatype Queue = Queue(cid: u16, frames: seq<seq<byte>>, requested: bool,
                         accepted: seq<seq<byte>>, fates: seq<Fate>, wire: seq<seq<byte>>, asked: u16)

  const IDLE := Queue(0, [], false, [], [], [], 0)

  /** The length argument of rfcomm_send is a uint16_t. */
  function Cast16(frame: seq<byte>): seq<byte> { frame[..|frame| % 0x1_0000] }

  // ----- steps -----

  function Request(q: Queue): Queue {
    if !q.requested && q.cid != 0 then q.(requested := true, asked := q.cid) else q
  }

  predicate CanQueue(q: Queue, frame: seq<byte>) {
    |q.frames| < SEND_Q_DEPTH - 1 && |frame| <= SEND_Q_BYTES
  }

  /** mux_write_rfcomm: the new state and the return value, rc being rfcomm_send's answer should
      it be called. */
  function WriteStep(q: Queue, frame: seq<byte>, rc: Answer): (Queue, int) {
    if q.cid == 0 then (q, -1)
    else if q.frames == [] && rc == Accepted then
      (q.(accepted := q.accepted + [frame], fates := q.fates + [Sent], wire := q.wire + [Cast16(frame)]), |frame|)
    else if q.frames == [] && rc == Failed then (q, -1)
    else if !CanQueue(q, frame) then (q, -1)
    else (Request(q.(frames := q.frames + [frame], accepted := q.accepted + [frame])), |frame|)
  }

  /** The k-th answer of an environment described by a list of any length. */
  function AnswerAt(answers: seq<Answer>, k: nat): Answer {
    if k < |answers| then answers[k] else Backpressure
  }

  /** send_q_drain, k answers having been given. */
  function DrainFrom(q: Queue, answers: seq<Answer>, k: nat): Queue
    decreases |q.frames|
  {
    if q.frames == [] then q
    else match AnswerAt(answers, k)
      case Backpressure => Request(q)
      case Accepted =>
        DrainFrom(q.(frames := q.frames[1..], fates := q.fates + [Sent], wire := q.wire + [Cast16(q.frames[0])]),
                  answers, k + 1)
      case Failed =>
        DrainFrom(q.(frames := q.frames[1..], fates := q.fates + [Dropped]), answers, k + 1)
  }

  datatype Event =
    | Write(frame: seq<byte>, rc: Answer)
    | CanSendNow(answers: seq<Answer>)
    | Opened(status: byte, cid: u16)
    | Closed

  function Step(q: Queue, e: Event): Queue {
    match e
    case Write(frame, rc) => WriteStep(q, frame, rc).0
    case CanSendNow(answers) => DrainFrom(q.(requested := false, asked := 0), answers, 0)
    case Opened(status, cid) => if status != 0 then q else q.(cid := cid)
    case Closed =>
      q.(cid := 0, frames := [], requested := false, asked := 0,
         fates := q.fates + seq(|q.frames|, _ => Flushed))
  }

  function Run(q: Queue, es: seq<Event>): Queue
    decreases |es|
  {
    if es == [] then q else Run(Step(q, es[0]), es[1..])
  }

  // ----- invariants -----

  /** The frames with fate Sent, in order. */
  function SentOf(frames: seq<seq<byte>>, fates: seq<Fate>): seq<seq<byte>>
    requires |frames| == |fates|
  {
    if frames == [] then []
    else (if fates[0] == Sent then [Cast16(frames[0])] else []) + SentOf(frames[1..], fates[1..])
  }

  lemma {:induction false} SentOfAppend(fs: seq<seq<byte>>, ts: seq<Fate>, gs: seq<seq<byte>>, us: seq<Fate>)
    requires |fs| == |ts| && |gs| == |us|
    ensures SentOf(fs + gs, ts + us) == SentOf(fs, ts) + SentOf(gs, us)
  {
    if fs == [] {
      assert fs + gs == gs && ts + us == us;
    } else {
      assert (fs + gs)[1..] == fs[1..] + gs && (ts + us)[1..] == ts[1..] + us;
      SentOfAppend(fs[1..], ts[1..], gs, us);
    }
  }

  lemma {:induction false} FlushedNotSent(fs: seq<seq<byte>>)
    ensures SentOf(fs, seq(|fs|, _ => Flushed)) == []
  {
    if fs != [] {
      var flushed := seq(|fs|, _ => Flushed);
      assert flushed[1..] == seq(|fs| - 1, _ => Flushed);
      FlushedNotSent(fs[1..]);
    }
  }

  /** Accepted frames are those with a fate followed by the queued ones, so each has exactly one
      place and the order is kept; what RFCOMM got is the frames with fate Sent, in order. */
  ghost predicate Fifo(q: Queue) {
    && |q.fates| <= |q.accepted|
    && q.accepted[|q.fates|..] == q.frames
    && q.wire == SentOf(q.accepted[..|q.fates|], q.fates)
  }

  ghost predicate Inv(q: Queue) {
    && Fifo(q)
    && |q.frames| <= SEND_Q_DEPTH - 1
    && (forall f <- q.frames :: |f| <= SEND_Q_BYTES)
    && q.requested == (q.frames != [])
    && (q.requested ==> q.cid != 0)
  }

  /** A queued frame always has a wake-up coming, on the channel it would be sent on. */
  ghost predicate NeverStuck(q: Queue) {
    q.frames != [] ==> q.requested && q.cid != 0 && q.asked == q.cid
  }

  lemma FateOfHead(q: Queue, fate: Fate, q': Queue)
    requires Fifo(q) && q.frames != []
    requires q'.frames == q.frames[1..] && q'.accepted == q.accepted && q'.fates == q.fates + [fate]
    requires q'.wire == if fate == Sent then q.wire + [Cast16(q.frames[0])] else q.wire
    ensures Fifo(q')
  {
    var n := |q.fates|;
    SentOfAppend(q.accepted[..n], q.fates, [q.frames[0]], [fate]);
    assert q.accepted[..n + 1] == q.accepted[..n] + [q.frames[0]];
  }

  lemma {:induction false} DrainKeepsFifo(q: Queue, answers: seq<Answer>, k: nat)
    requires Fifo(q)
    ensures var d := DrainFrom(q, answers, k); Fifo(d) && d.accepted == q.accepted
    decreases |q.frames|
  {
    if q.frames != [] {
      match AnswerAt(answers, k)
      case Backpressure =>
      case Accepted =>
        var d := q.(frames := q.frames[1..], fates := q.fates + [Sent], wire := q.wire + [Cast16(q.frames[0])]);
        FateOfHead(q, Sent, d);
        DrainKeepsFifo(d, answers, k + 1);
      case Failed =>
        var d := q.(frames := q.frames[1..], fates := q.fates + [Dropped]);
        FateOfHead(q, Dropped, d);
        DrainKeepsFifo(d, answers, k + 1);
    }
  }

  /** A drain leaves a suffix of the ring, and asks for a wake-up exactly if it is not empty. */
  lemma {:induction false} DrainLeaves(q: Queue, answers: seq<Answer>, k: nat)
    requires !q.requested && (q.frames != [] ==> q.cid != 0)
    ensures var d := DrainFrom(q, answers, k);
            && |d.frames| <= |q.frames| && d.frames == q.frames[|q.frames| - |d.frames|..]
            && d.cid == q.cid && d.requested == (d.frames != []) && (d.requested ==> d.asked == d.cid)
    decreases |q.frames|
  {
    if q.frames != [] {
      match AnswerAt(answers, k)
      case Backpressure =>
      case Accepted =>
        DrainLeaves(q.(frames := q.frames[1..], fates := q.fates + [Sent], wire := q.wire + [Cast16(q.frames[0])]),
                    answers, k + 1);
      case Failed =>
        DrainLeaves(q.(frames := q.frames[1..], fates := q.fates + [Dropped]), answers, k + 1);
    }
  }

  lemma AcceptKeepsFifo(q: Queue, frame: seq<byte>, rc: Answer)
    requires Fifo(q)
    ensures Fifo(WriteStep(q, frame, rc).0)
  {
    var n := |q.fates|;
    var accepted := q.accepted + [frame];
    if q.frames == [] && rc == Accepted {
      assert q.accepted[..n] == q.accepted;
      SentOfAppend(q.accepted, q.fates, [frame], [Sent]);
      assert accepted[..n + 1] == accepted;
    } else if CanQueue(q, frame) {
      assert accepted[..n] == q.accepted[..n];
      assert accepted[n..] == q.frames + [frame];
    }
  }

  lemma CloseKeepsFifo(q: Queue)
    requires Fifo(q)
    ensures Fifo(Step(q, Closed))
  {
    var n := |q.fates|;
    var flushed := seq(|q.frames|, _ => Flushed);
    SentOfAppend(q.accepted[..n], q.fates, q.frames, flushed);
    FlushedNotSent(q.frames);
    assert q.accepted[..n] + q.frames == q.accepted;
    assert q.accepted[..|q.accepted|] == q.accepted;
  }

  /** Every event, in every state, keeps the FIFO history. */
  lemma StepKeepsFifo(q: Queue, e: Event)
    requires Fifo(q)
    ensures Fifo(Step(q, e))
  {
    match e
    case Write(frame, rc) => AcceptKeepsFifo(q, frame, rc);
    case CanSendNow(answers) => DrainKeepsFifo(q.(requested := false, asked := 0), answers, 0);
    case Opened(_, _) =>
    case Closed => CloseKeepsFifo(q);
  }

  /** An open is harmless if nothing is queued (as it is whenever the channel was closed before)
      or the channel stays the same. */
  predicate Harmless(q: Queue, e: Event) {
    e.Opened? && e.status == 0 ==> q.frames == [] || e.cid == q.cid
  }

  /** Every event keeps the ring's bounds and its request flag, unless it re-opens channel 0 on
      top of queued frames. */
  lemma StepKeepsInv(q: Queue, e: Event)
    requires Inv(q)
    ensures Inv(Step(q, e)) <==> !(e.Opened? && e.status == 0 && e.cid == 0 && q.frames != [])
  {
    StepKeepsFifo(q, e);
    if e.CanSendNow? {
      DrainLeaves(q.(requested := false, asked := 0), e.answers, 0);
    }
  }

  /** Exactly the harmless events keep every queued frame's wake-up. */
  lemma StepKeepsNeverStuck(q: Queue, e: Event)
    requires Inv(q) && NeverStuck(q)
    ensures NeverStuck(Step(q, e)) <==> Harmless(q, e)
  {
    if e.CanSendNow? {
      DrainLeaves(q.(requested := false, asked := 0), e.answers, 0);
    }
  }

  ghost predicate HarmlessRun(q: Queue, es: seq<Event>)
    decreases |es|
  {
    es == [] || (Harmless(q, es[0]) && HarmlessRun(Step(q, es[0]), es[1..]))
  }

  /** The queue theorem: in every state any run of harmless events reaches. */
  lemma {:induction false} RunKeeps(q: Queue, es: seq<Event>)
    requires Inv(q) && NeverStuck(q) && HarmlessRun(q, es)
    ensures Inv(Run(q, es)) && NeverStuck(Run(q, es))
    decreases |es|
  {
    if es != [] {
      StepKeepsInv(q, es[0]);
      StepKeepsNeverStuck(q, es[0]);
      RunKeeps(Step(q, es[0]), es[1..]);
    }
  }

  /** Opens that come only when the channel is closed are harmless. */
  lemma OpenWhenClosedIsHarmless(q: Queue, e: Event)
    requires Inv(q)
    requires e.Opened? ==> q.cid == 0
    ensures Harmless(q, e)
  {
  }

  /** The frames as RFCOMM gets them. */
  function CastAll(fs: seq<seq<byte>>): (cs: seq<seq<byte>>)
    ensures |cs| == |fs|
  {
    seq(|fs|, i requires 0 <= i < |fs| => Cast16(fs[i]))
  }

  lemma CastAllHead(fs: seq<seq<byte>>)
    requires fs != []
    ensures CastAll(fs) == [Cast16(fs[0])] + CastAll(fs[1..])
  {
  }

  /** A drain whose sends are all accepted empties the ring onto the wire, in order. */
  lemma {:induction false} DrainEmpties(q: Queue, answers: seq<Answer>, k: nat)
    requires forall i | k <= i < k + |q.frames| :: AnswerAt(answers, i) == Accepted
    ensures var d := DrainFrom(q, answers, k); d.frames == [] && d.wire == q.wire + CastAll(q.frames)
    decreases |q.frames|
  {
    if q.frames != [] {
      var f := q.frames;
      assert AnswerAt(answers, k) == Accepted;
      DrainEmpties(q.(frames := f[1..], fates := q.fates + [Sent], wire := q.wire + [Cast16(f[0])]), answers, k + 1);
      CastAllHead(f);
    }
  }

  // ----- runs that lose nothing -----

  /** No close, and no code but 0 and the back-pressure ones from a drain. */
  predicate Lossless(e: Event) { !e.Closed? && (e.CanSendNow? ==> Failed !in e.answers) }

  ghost predicate AllSent(fates: seq<Fate>) {
    forall i | 0 <= i < |fates| :: fates[i] == Sent
  }

  lemma {:induction false} DrainSendsAll(q: Queue, answers: seq<Answer>, k: nat)
    requires AllSent(q.fates) && Failed !in answers
    ensures AllSent(DrainFrom(q, answers, k).fates)
    decreases |q.frames|
  {
    if q.frames != [] && AnswerAt(answers, k) == Accepted {
      DrainSendsAll(q.(frames := q.frames[1..], fates := q.fates + [Sent], wire := q.wire + [Cast16(q.frames[0])]),
                    answers, k + 1);
    }
  }

  lemma {:induction false} LosslessRunKeeps(q: Queue, es: seq<Event>)
    requires Fifo(q) && AllSent(q.fates) && forall e <- es :: Lossless(e)
    ensures Fifo(Run(q, es)) && AllSent(Run(q, es).fates)
    decreases |es|
  {
    if es != [] {
      var e := es[0];
      assert e in es;
      StepKeepsFifo(q, e);
      if e.CanSendNow? {
        DrainSendsAll(q.(requested := false, asked := 0), e.answers, 0);
      }
      LosslessRunKeeps(Step(q, e), es[1..]);
    }
  }

  lemma {:induction false} SentIsAll(fs: seq<seq<byte>>, fates: seq<Fate>)
    requires |fs| == |fates| && AllSent(fates)
    ensures SentOf(fs, fates) == CastAll(fs)
  {
    if fs != [] {
      SentIsAll(fs[1..], fates[1..]);
      CastAllHead(fs);
    }
  }

  /** Without closes and hard failures no run loses anything: what RFCOMM got, followed by what is queued,
      is everything that was accepted, once each and in order. */
  lemma NothingLost(es: seq<Event>)
    requires forall e <- es :: Lossless(e)
    ensures var q := Run(IDLE, es); q.wire + CastAll(q.frames) == CastAll(q.accepted)
  {
    LosslessRunKeeps(IDLE, es);
    var q := Run(IDLE, es);
    var n := |q.fates|;
    SentIsAll(q.accepted[..n], q.fates);
    assert q.accepted == q.accepted[..n] + q.frames;
  }

  // ----- what each operation does, by its effect on frames -----

  /** A write is reported as the frame's length exactly if the channel is open and the frame either goes
      straight out, behind nothing and with answer 0, or finds room: no hard failure in front of an empty
      queue, fewer than 63 frames queued, at most 1100 bytes. It is reported as -1 otherwise, and then
      changes nothing. */
  lemma WriteExactly(q: Queue, frame: seq<byte>, rc: Answer)
    ensures var (q', n) := WriteStep(q, frame, rc);
            var direct := q.frames == [] && rc == Accepted;
            var queued := !(q.frames == [] && rc != Backpressure) && |q.frames| < 63 && |frame| <= 1100;
            && (n == |frame| <==> q.cid != 0 && (direct || queued))
            && (n != |frame| ==> n == -1 && q' == q)
            && (n == |frame| ==> q'.accepted == q.accepted + [frame] && q'.cid == q.cid)
            && (n == |frame| && direct ==> q'.frames == [] && q'.wire == q.wire + [Cast16(frame)])
            && (n == |frame| && !direct ==> q'.frames == q.frames + [frame] && q'.wire == q.wire && q'.requested)
  {
  }

  /** The answers a drain of n frames gets, up to the first back-pressure. */
  function Handled(answers: seq<Answer>, k: nat, n: nat): (m: nat)
    ensures m <= n
    ensures forall i | k <= i < k + m :: AnswerAt(answers, i) != Backpressure
    ensures m < n ==> AnswerAt(answers, k + m) == Backpressure
    decreases n
  {
    if n == 0 || AnswerAt(answers, k) == Backpressure then 0 else 1 + Handled(answers, k + 1, n - 1)
  }

  /** The fates m answers decide. */
  function FatesOf(answers: seq<Answer>, k: nat, m: nat): seq<Fate>
    decreases m
  {
    if m == 0 then [] else [FateOf(AnswerAt(answers, k))] + FatesOf(answers, k + 1, m - 1)
  }

  function FateOf(a: Answer): Fate { if a == Accepted then Sent else Dropped }

  /** A drain handles the frames up to the first back-pressure, one answer each: those answered 0 are sent,
      those answered otherwise are dropped, and the rest stays queued, with a wake-up requested. */
  lemma {:induction false} DrainExactly(q: Queue, answers: seq<Answer>, k: nat)
    ensures var d := DrainFrom(q, answers, k);
            var m := Handled(answers, k, |q.frames|);
            && d.frames == q.frames[m..] && d.cid == q.cid && d.accepted == q.accepted
            && d.fates == q.fates + FatesOf(answers, k, m)
            && (q.cid != 0 && m < |q.frames| ==> d.requested)
    decreases |q.frames|
  {
    if q.frames != [] && AnswerAt(answers, k) != Backpressure {
      var fate := FateOf(AnswerAt(answers, k));
      var d := HandledHead(q, fate);
      DrainExactly(d, answers, k + 1);
      DrainNext(q, answers, k);
      var m := Handled(answers, k + 1, |d.frames|);
      assert q.fates + [fate] + FatesOf(answers, k + 1, m) == q.fates + ([fate] + FatesOf(answers, k + 1, m));
    } else {
      assert q.fates + [] == q.fates && q.frames[0..] == q.frames;
    }
  }

  /** The queue with its oldest frame handled. */
  function HandledHead(q: Queue, fate: Fate): Queue
    requires q.frames != []
  {
    q.(frames := q.frames[1..], fates := q.fates + [fate],
       wire := if fate == Sent then q.wire + [Cast16(q.frames[0])] else q.wire)
  }

  lemma DrainNext(q: Queue, answers: seq<Answer>, k: nat)
    requires q.frames != [] && AnswerAt(answers, k) != Backpressure
    ensures DrainFrom(q, answers, k) == DrainFrom(HandledHead(q, FateOf(AnswerAt(answers, k))), answers, k + 1)
  {
  }

  // ----- the channel -----

  predicate Opens(e: Event) { e.Opened? && e.status == 0 }

  /** The channel a history leaves: that of the last successful open since the last close, 0 if none. */
  function ChannelOf(es: seq<Event>): u16
  {
    if es == [] then 0
    else
      var last := es[|es| - 1];
      if last.Closed? then 0 else if Opens(last) then last.cid else ChannelOf(es[..|es| - 1])
  }

  lemma DrainKeepsChannel(q: Queue, answers: seq<Answer>)
    ensures Step(q, CanSendNow(answers)).cid == q.cid
  {
    DrainExactly(q.(requested := false, asked := 0), answers, 0);
  }

  lemma {:induction false} RunSnoc(q: Queue, es: seq<Event>, e: Event)
    ensures Run(q, es + [e]) == Step(Run(q, es), e)
    decreases |es|
  {
    if es == [] {
      assert [] + [e] == [e] && [e][1..] == [];
      assert Run(Step(q, e), []) == Step(q, e);
    } else {
      assert (es + [e])[1..] == es[1..] + [e];
      RunSnoc(Step(q, es[0]), es[1..], e);
    }
  }

  /** On every run the queue's channel is the history's. */
  lemma {:induction false} ChannelIsHistory(es: seq<Event>)
    ensures Run(IDLE, es).cid == ChannelOf(es)
    decreases |es|
  {
    if es != [] {
      var n := |es| - 1;
      ChannelIsHistory(es[..n]);
      assert es == es[..n] + [es[n]];
      RunSnoc(IDLE, es[..n], es[n]);
      if es[n].CanSendNow? {
        DrainKeepsChannel(Run(IDLE, es[..n]), es[n].answers);
      }
    }
  }

  // ----- a closed channel -----

  /** Nothing is queued, and no channel is open. */
  predicate Silent(q: Queue) { q.cid == 0 && q.frames == [] }

  /** What a queue has to show for itself. */
  predicate SameHistory(q: Queue, q': Queue) {
    q'.accepted == q.accepted && q'.fates == q.fates && q'.wire == q.wire
  }

  lemma {:induction false} SilentStays(q: Queue, es: seq<Event>)
    requires Silent(q) && forall k | 0 <= k < |es| :: !Opens(es[k])
    ensures Silent(Run(q, es)) && SameHistory(q, Run(q, es))
    decreases |es|
  {
    if es != [] {
      var q' := Step(q, es[0]);
      assert Silent(q') && SameHistory(q, q') by {
        assert es[0].Closed? ==> q'.fates == q.fates + [];
      }
      assert forall k | 0 <= k < |es| - 1 :: es[1..][k] == es[k + 1];
      SilentStays(q', es[1..]);
    }
  }

  /** After a close, in any state and over any events without a successful open: every write is refused,
      nothing more is accepted, sent or dropped, nothing is queued, and so any open is harmless. */
  lemma ClosedIsSilent(q: Queue, es: seq<Event>, frame: seq<byte>, rc: Answer, open: Event)
    requires forall k | 0 <= k < |es| :: !Opens(es[k])
    ensures var closed := Step(q, Closed);
            var q' := Run(closed, es);
            && q'.frames == [] && SameHistory(closed, q') && WriteStep(q', frame, rc) == (q', -1) && Harmless(q', open)
            && closed.accepted == q.accepted && closed.wire == q.wire
  {
    SilentStays(Step(q, Closed), es);
  }
}
