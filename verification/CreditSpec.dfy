/** The flow control of TcpStream.kt as interleaved atomic steps: the read pump, any number of
    concurrent window updates, a mutex and a one-token signal channel. */
module CreditSpec {
  import opened Bytes

  const INT_MAX := 0x7FFF_FFFF
  const CHUNK_SIZE := 2048
  const CREDIT_CHUNK := 16384
  const RST_REASON_PEER_RESET := 0x0001

  /** Where the pump is: about to read the window under the lock; parked on the signal channel after
      having seen it empty; about to read the socket with avail bytes of credit seen; about to
      consume the credit of what it read; about to send it; or finished. */
  datatype Pump = Checking | Parked | Reading(avail: int) | Consuming(data: seq<byte>) | Sending(data: seq<byte>) | Done

  /** The stream's variables: the window, the signal channel's token, the updaters that have left
      the lock and not yet signalled, and whether the scope is active. Then its history: the initial
      window, the credit received and the part of it lost to saturation, the bytes read from the
      socket, those sent in TCP_DATA frames, and the frames that ended the stream. */
  datatype Stream = Stream(window: int, token: bool, updaters: nat, active: bool, pump: Pump,
                           initial: nat, credited: nat, clipped: nat, consumed: nat,
                           taken: seq<byte>, frames: seq<seq<byte>>, closing: seq<Ending>)

  /** The frame the pump ends with: TCP_CLOSE_WR, or TCP_RST with a reason. */
  datatype Ending = CloseWr | Reset(reason: nat)

  datatype Step =
    | UpdateWindow(credit: u32)     // the locked part of onPeerWindowUpdate
    | Signal                        // its trySend
    | Check                         // the locked read in waitForCredit
    | Receive                       // the signal channel's receive
    | GotData(data: seq<byte>)      // input.read returned data, possibly of length 0
    | GotEnd                        // input.read returned -1
    | GotFailure                    // input.read raised IOException
    | Consume                       // consumeCredit
    | Send                          // writer.send
    | Cancel
    | Stop                          // the pump notices the cancellation

  function Init(window: nat): Stream {
    Stream(window, false, 0, true, Checking, window, 0, 0, 0, [], [], [])
  }

  predicate Enabled(s: Stream, e: Step) {
    match e
    case UpdateWindow(_) => true
    case Signal => s.updaters > 0
    case Check => s.pump == Checking
    case Receive => s.pump == Parked && s.token
    case GotData(data) => s.pump.Reading? && |data| <= CHUNK_SIZE && |data| <= s.pump.avail
    case GotEnd => s.pump.Reading?
    case GotFailure => s.pump.Reading?
    case Consume => s.pump.Consuming?
    case Send => s.pump.Sending?
    case Cancel => true
    case Stop => !s.active && (s.pump == Checking || s.pump == Parked)
  }

  function Min(a: int, b: int): int { if a < b then a else b }

  function Do(s: Stream, e: Step): Stream
    requires Enabled(s, e)
  {
    match e
    case UpdateWindow(credit) =>
      var w := Min(s.window + credit, INT_MAX);
      var lost := s.window + credit - w;
      s.(window := w, updaters := s.updaters + 1, credited := s.credited + credit,
         clipped := s.clipped + lost)
    case Signal => s.(token := true, updaters := s.updaters - 1)
    case Check => s.(pump := if s.window > 0 then Reading(s.window) else Parked)
    case Receive => s.(token := false, pump := Checking)
    case GotData(data) =>
      if data == [] then s.(pump := Checking) else s.(pump := Consuming(data), taken := s.taken + data)
    case GotEnd => s.(pump := Done, closing := s.closing + [CloseWr])
    case GotFailure => s.(pump := Done, closing := s.closing + [Reset(RST_REASON_PEER_RESET)])
    case Consume =>
      var data := s.pump.data;
      s.(window := s.window - |data|, pump := Sending(data), consumed := s.consumed + |data|)
    case Send => s.(pump := Checking, frames := s.frames + [s.pump.data])
    case Cancel => s.(active := false)
    case Stop => s.(pump := Done)
  }

  /** The steps of any interleaving that can happen, one after the other. */
  ghost predicate Possible(s: Stream, es: seq<Step>)
    decreases |es|
  {
    es == [] || (Enabled(s, es[0]) && Possible(Do(s, es[0]), es[1..]))
  }

  function Run(s: Stream, es: seq<Step>): Stream
    requires Possible(s, es)
    decreases |es|
  {
    if es == [] then s else Run(Do(s, es[0]), es[1..])
  }

  function SentBytes(s: Stream): seq<byte> { Concat(s.frames) }

  /** Bytes read from the socket and not yet sent. */
  function InFlight(s: Stream): seq<byte> {
    if s.pump.Consuming? || s.pump.Sending? then s.pump.data else []
  }

  /** Credit is conserved: what is left, what was used and what saturation lost is what was granted.
      The window is never negative, and the pump never holds more than it. */
  ghost predicate Conserved(s: Stream) {
    && 0 <= s.window <= INT_MAX
    && s.window + s.consumed + s.clipped == s.initial + s.credited
    && (s.pump.Reading? ==> 0 < s.pump.avail <= s.window)
    && (s.pump.Consuming? ==> |s.pump.data| <= s.window)
  }

  /** Everything read is sent once and in order, in frames of at most 2048 bytes, and only on
      credit consumed before. */
  ghost predicate Faithful(s: Stream) {
    && s.taken == SentBytes(s) + InFlight(s)
    && |SentBytes(s)| + (if s.pump.Sending? then |s.pump.data| else 0) == s.consumed
    && (s.pump.Consuming? || s.pump.Sending? ==> 0 < |s.pump.data| <= CHUNK_SIZE)
    && (forall f <- s.frames :: 0 < |f| <= CHUNK_SIZE)
  }

  /** A pump parked while there is credit has a wake-up in the channel or on its way to it. */
  ghost predicate NoLostWakeup(s: Stream) {
    s.pump == Parked && s.window > 0 ==> s.token || s.updaters > 0
  }

  ghost predicate Inv(s: Stream) { Conserved(s) && Faithful(s) && NoLostWakeup(s) }

  lemma SendKeepsFaithful(s: Stream)
    requires Faithful(s) && s.pump.Sending?
    ensures Faithful(Do(s, Send))
  {
    ConcatAppend(s.frames, [s.pump.data]);
    assert Concat([s.pump.data]) == s.pump.data + [];
    assert SentBytes(Do(s, Send)) == SentBytes(s) + s.pump.data;
  }

  lemma StepKeepsFaithful(s: Stream, e: Step)
    requires Faithful(s) && Enabled(s, e)
    ensures Faithful(Do(s, e))
  {
    if e.Send? {
      SendKeepsFaithful(s);
    } else if e.GotData? {
      assert SentBytes(s) + [] == SentBytes(s);
    }
  }

  lemma StepKeepsConserved(s: Stream, e: Step)
    requires Conserved(s) && Enabled(s, e)
    ensures Conserved(Do(s, e))
  {
  }

  lemma StepKeepsWakeup(s: Stream, e: Step)
    requires NoLostWakeup(s) && Enabled(s, e)
    ensures NoLostWakeup(Do(s, e))
  {
  }

  lemma StepKeeps(s: Stream, e: Step)
    requires Inv(s) && Enabled(s, e)
    ensures Inv(Do(s, e))
  {
    StepKeepsConserved(s, e);
    StepKeepsFaithful(s, e);
    StepKeepsWakeup(s, e);
  }

  lemma {:induction false} RunKeeps(s: Stream, es: seq<Step>)
    requires Inv(s) && Possible(s, es)
    ensures Inv(Run(s, es))
    ensures Run(s, es).initial == s.initial
    decreases |es|
  {
    if es != [] {
      StepKeeps(s, es[0]);
      RunKeeps(Do(s, es[0]), es[1..]);
    }
  }

  /** Credit safety and no lost wake-up, under every interleaving. */
  lemma CreditTheorem(window: nat, es: seq<Step>)
    requires window <= INT_MAX && Possible(Init(window), es)
    ensures var s := Run(Init(window), es);
            && 0 <= s.window
            && |SentBytes(s)| <= s.consumed <= window + s.credited - s.clipped
            && s.taken == SentBytes(s) + InFlight(s)
            && (s.pump == Parked && s.window > 0 && !s.token ==> s.updaters > 0)
  {
    RunKeeps(Init(window), es);
  }

  /** Nothing but the updaters' own signals is needed to wake a pump that has credit: it is either
      ready to receive, or ready after any one of them signals, which none of the others can undo. */
  lemma WakesUp(s: Stream)
    requires Inv(s) && s.pump == Parked && s.window > 0
    ensures Enabled(s, Receive) || (Enabled(s, Signal) && Enabled(Do(s, Signal), Receive))
    ensures s.token ==> forall credit: u32 :: Enabled(Do(s, UpdateWindow(credit)), Receive)
    ensures s.token && s.updaters > 0 ==> Enabled(Do(s, Signal), Receive)
    ensures s.token ==> Do(Do(s, Receive), Check).pump == Reading(s.window)
  {
  }

  // ----- no credit goes missing -----

  /** A window update adds its credit in full, up to the largest Int, and books no more as lost. */
  lemma UpdateExactly(s: Stream, credit: u32)
    requires Inv(s)
    ensures var s' := Do(s, UpdateWindow(credit));
            && s'.window == (if s.window + credit <= 0x7FFF_FFFF then s.window + credit else 0x7FFF_FFFF)
            && (s'.clipped == s.clipped <==> s.window + credit <= 0x7FFF_FFFF)
            && s'.credited == s.credited + credit && s'.consumed == s.consumed
  {
  }

  lemma {:induction false} NothingClipped(s: Stream, es: seq<Step>)
    requires Inv(s) && Possible(s, es) && s.clipped == 0
    requires Run(s, es).initial + Run(s, es).credited <= 0x7FFF_FFFF
    ensures Run(s, es).clipped == 0
    decreases |es|
  {
    if es != [] {
      StepKeeps(s, es[0]);
      CreditGrows(Do(s, es[0]), es[1..]);
      if es[0].UpdateWindow? {
        UpdateExactly(s, es[0].credit);
      }
      NothingClipped(Do(s, es[0]), es[1..]);
    }
  }

  /** The credit received so far, read off the steps. */
  function CreditIn(es: seq<Step>): nat
  {
    if es == [] then 0 else (if es[0].UpdateWindow? then es[0].credit else 0) + CreditIn(es[1..])
  }

  lemma {:induction false} CreditGrows(s: Stream, es: seq<Step>)
    requires Possible(s, es)
    ensures Run(s, es).credited == s.credited + CreditIn(es) && Run(s, es).initial == s.initial
    decreases |es|
  {
    if es != [] {
      CreditGrows(Do(s, es[0]), es[1..]);
    }
  }

  /** Unless the whole grant exceeds an Int, every byte of credit is there to be used: what is left of the
      window and what was sent or is about to be add up to the initial window and all updates. */
  lemma AllCreditCounts(window: nat, es: seq<Step>)
    requires Possible(Init(window), es) && window + CreditIn(es) <= 0x7FFF_FFFF
    ensures var s := Run(Init(window), es);
            && s.window + s.consumed == window + CreditIn(es)
            && s.window + |SentBytes(s)| + (if s.pump.Sending? then |s.pump.data| else 0) == window + CreditIn(es)
  {
    RunKeeps(Init(window), es);
    CreditGrows(Init(window), es);
    NothingClipped(Init(window), es);
  }

  /** A pump that waits without credit reads on with all of an update as soon as that has signalled. */
  lemma CreditRestarts(s: Stream, credit: u32)
    requires Inv(s) && s.pump == Parked && credit > 0
    ensures var s1 := Do(s, UpdateWindow(credit));
            && Enabled(s1, Signal)
            && var s2 := Do(s1, Signal);
               && Enabled(s2, Receive)
               && Do(Do(s2, Receive), Check).pump
                  == Reading(if s.window + credit <= 0x7FFF_FFFF then s.window + credit else 0x7FFF_FFFF)
  {
    UpdateExactly(s, credit);
  }

  /** Without credit a wake-up is used up: the pump parks again, and only a further signal wakes it. */
  lemma ParksAgain(s: Stream)
    requires Inv(s) && s.pump == Parked && s.token && s.window == 0
    ensures var s' := Do(Do(s, Receive), Check);
            && s'.pump == Parked && !Enabled(s', Receive)
            && (s.updaters > 0 ==> Enabled(Do(s', Signal), Receive))
  {
  }

  /** A cancelled pump that waits can stop, and stops without a frame. */
  lemma CancelStops(s: Stream)
    requires Inv(s) && s.pump == Parked
    ensures var s' := Do(s, Cancel);
            && Enabled(s', Stop) && Do(s', Stop).pump == Done && Do(s', Stop).closing == s.closing
            && (s.active ==> !Enabled(s, Stop))
  {
  }

  // ----- the end of the stream -----

  /** The pump's last step. */
  predicate Ends(e: Step) { e.GotEnd? || e.GotFailure? || e.Stop? }

  lemma {:induction false} DoneStays(s: Stream, es: seq<Step>)
    requires s.pump == Done && Possible(s, es)
    ensures Run(s, es).pump == Done && Run(s, es).closing == s.closing && Run(s, es).frames == s.frames
    ensures forall k | 0 <= k < |es| :: !Ends(es[k])
    decreases |es|
  {
    if es != [] {
      DoneStays(Do(s, es[0]), es[1..]);
      assert forall k | 0 < k < |es| :: es[k] == es[1..][k - 1];
    }
  }

  /** How the pump came to its end, if it did. */
  function LastEnd(es: seq<Step>): seq<Ending> {
    if es == [] then []
    else (match es[0]
          case GotEnd => [CloseWr]
          case GotFailure => [Reset(1)]
          case _ => []) + LastEnd(es[1..])
  }

  lemma {:induction false} ClosingRun(s: Stream, es: seq<Step>)
    requires Possible(s, es)
    ensures Run(s, es).closing == s.closing + LastEnd(es)
    decreases |es|
  {
    if es == [] {
      assert s.closing + [] == s.closing;
    } else {
      var s' := Do(s, es[0]);
      ClosingRun(s', es[1..]);
      assert s'.closing == s.closing + LastEnd([es[0]]) by { OneEnd(es[0]); }
      OneEnd(es[0]);
      assert LastEnd(es) == LastEnd([es[0]]) + LastEnd(es[1..]);
      assert s.closing + LastEnd([es[0]]) + LastEnd(es[1..]) == s.closing + (LastEnd([es[0]]) + LastEnd(es[1..]));
    }
  }

  lemma OneEnd(e: Step)
    ensures LastEnd([e]) == if e.GotEnd? then [CloseWr] else if e.GotFailure? then [Reset(1)] else []
  {
    assert [e][1..] == [];
  }

  /** On every run the stream is ended at most once: by a CLOSE_WR exactly if the socket came to its end, by
      an RST with reason 1 exactly if reading failed; nothing is sent after it. */
  lemma {:induction false} EndsOnce(s: Stream, es: seq<Step>)
    requires Possible(s, es) && s.closing == [] && s.pump != Done
    ensures var s' := Run(s, es);
            && s'.closing == LastEnd(es) && |s'.closing| <= 1 && (s'.closing != [] ==> s'.pump == Done)
    decreases |es|
  {
    ClosingRun(s, es);
    assert s.closing + LastEnd(es) == LastEnd(es);
    if es != [] {
      if Ends(es[0]) {
        DoneStays(Do(s, es[0]), es[1..]);
      } else {
        EndsOnce(Do(s, es[0]), es[1..]);
      }
    }
  }

  // ----- credit returned to the peer -----

  /** receivedSinceCredit, the credits sent in TCP_WINDOW frames, and the bytes forwarded. */
  datatype Returns = Returns(pending: nat, windows: seq<nat>, forwarded: nat)

  /** onPeerData once the socket has taken n bytes. */
  function Forwarded(r: Returns, n: nat): Returns {
    var p := r.pending + n;
    if p >= CREDIT_CHUNK then Returns(0, r.windows + [p], r.forwarded + n)
    else Returns(p, r.windows, r.forwarded + n)
  }

  function Sum(ns: seq<nat>): nat { if ns == [] then 0 else ns[0] + Sum(ns[1..]) }

  lemma {:induction false} SumAppend(a: seq<nat>, b: seq<nat>)
    ensures Sum(a + b) == Sum(a) + Sum(b)
  {
    if a == [] {
      assert a + b == b;
    } else {
      assert (a + b)[1..] == a[1..] + b;
      SumAppend(a[1..], b);
    }
  }

  function ForwardAll(r: Returns, ns: seq<nat>): Returns
    decreases |ns|
  {
    if ns == [] then r else ForwardAll(Forwarded(r, ns[0]), ns[1..])
  }

  ghost predicate Balanced(r: Returns) {
    && Sum(r.windows) + r.pending == r.forwarded && r.pending < CREDIT_CHUNK
    && forall w <- r.windows :: CREDIT_CHUNK <= w
  }

  lemma ForwardedKeeps(r: Returns, n: nat)
    requires Balanced(r)
    ensures Balanced(Forwarded(r, n))
  {
    SumAppend(r.windows, [r.pending + n]);
  }

  /** Over any sequence of forwarded blocks, the credits returned and the remainder add up to the
      bytes forwarded, the remainder stays below 16384, and no credit below 16384 is ever sent. */
  lemma {:induction false} CreditReturned(r: Returns, ns: seq<nat>)
    requires Balanced(r)
    ensures Balanced(ForwardAll(r, ns)) && ForwardAll(r, ns).forwarded == r.forwarded + Sum(ns)
    ensures ForwardAll(r, ns).pending < 16384 && forall w <- ForwardAll(r, ns).windows :: 16384 <= w
    decreases |ns|
  {
    if ns != [] {
      ForwardedKeeps(r, ns[0]);
      CreditReturned(Forwarded(r, ns[0]), ns[1..]);
    }
  }
}
