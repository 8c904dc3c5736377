/** What every run of divert.c does for each TCP stream: each stream's story, written from the events
    alone, against the table and against everything sent for it and done to its socket. */
module DivertHistory {
  import opened Bytes
  import opened Frame
  import opened MuxSpec
  import opened Ipv4
  import opened DivertTable

  /** One stream, from the accept that opened it: its socket and destination; whether its OPEN was
      acknowledged; the ends of input and CLOSE_WRs seen; the bytes the socket took; whether it is over;
      the mux frames and the socket operations besides writes that are due, in order. And what was done. */
  datatype Story = Story(fd: nat, dst: Endpoint, acked: bool, eofs: nat, closeWrs: nat, taken: seq<byte>, over: bool,
                         frames: seq<Message>, ops: seq<Out>, out: seq<Out>)

  datatype World = World(t: Tables, tcp: map<u16, Story>)

  // ----- history -----

  /** A frame for every chunk read. */
  function ChunkFrames(sid: u16, input: seq<Read>): seq<Message> {
    if input == [] then []
    else (if input[0].Chunk? then [TcpData(sid, input[0].data)] else []) + ChunkFrames(sid, input[1..])
  }

  /** What the answer that ends a read loop calls for: CLOSE_WR at the end of the input, an RST with reason 1
      if reading failed, the refused chunk and an RST with reason 0xFF if the mux refused it. */
  function EndFrames(sid: u16, last: Option<Read>): seq<Message> {
    match last
    case None => []
    case Some(r) =>
      match r
      case Eof => [TcpCloseWr(sid)]
      case ReadFailed => [TcpRst(sid, 0x0001)]
      case Chunk(data, _) => [TcpData(sid, data), TcpRst(sid, 0x00FF)]
      case WouldBlock => []
      case ReadInterrupted => []
  }

  function ReadFrames(sid: u16, input: seq<Read>): seq<Message> {
    ChunkFrames(sid, input[..Upto(input)]) + EndFrames(sid, LastAnswer(input))
  }

  /** How many of left bytes the socket takes from answer k on, and whether a write fails before it has all. */
  function Takes(left: nat, answers: seq<Wrote>, k: nat): (r: (nat, bool))
    ensures r.0 <= left
    decreases if k < |answers| then |answers| - k else 0, left
  {
    if left == 0 then (0, false)
    else match WroteAt(answers, k, left)
      case WriteInterrupted => Takes(left, answers, k + 1)
      case WriteFailed => (0, true)
      case Took(n) =>
        var r := Takes(left - n, answers, k + 1);
        (n + r.0, r.1)
  }

  /** The story is over: the socket is closed. */
  function Finish(h: Story): Story { h.(over := true, ops := h.ops + [CloseFd(h.fd)]) }

  function SawRead(h: Story, sid: u16, input: seq<Read>): Story {
    var h' := h.(frames := h.frames + ReadFrames(sid, input));
    match LastAnswer(input)
    case None => h'
    case Some(r) =>
      match r
      case Eof =>
        var ended := h'.(eofs := h.eofs + 1);
        if h.closeWrs > 0 then Finish(ended) else ended
      case ReadFailed => Finish(h')
      case Chunk(_, _) => Finish(h')
      case WouldBlock => h'
      case ReadInterrupted => h'
  }

  function SawData(h: Story, sid: u16, data: seq<byte>, answers: seq<Wrote>): Story {
    var (n, failed) := Takes(|data|, answers, 0);
    var h' := h.(taken := h.taken + data[..n]);
    if failed then Finish(h'.(frames := h.frames + [TcpRst(sid, 0x0001)])) else h'
  }

  /** The stream an event of a live TCP stream is about. */
  function StreamOfEvent(e: Event): Option<u16> {
    match e
    case OpenAck(sid, _) => Some(sid)
    case Data(sid, _, _) => Some(sid)
    case CloseWr(sid) => Some(sid)
    case Rst(sid) => Some(sid)
    case Readable(sid, _) => Some(sid)
    case _ => None
  }

  function Saw(h: Story, e: Event): Story
    requires StreamOfEvent(e).Some?
  {
    match e
    case OpenAck(_, status) => if status != 0 then Finish(h) else h.(acked := true)
    case Data(sid, data, answers) => SawData(h, sid, data, answers)
    case CloseWr(_) =>
      var h' := h.(closeWrs := h.closeWrs + 1, ops := h.ops + [ShutdownWr(h.fd)]);
      if h.eofs > 0 then Finish(h') else h'
    case Rst(_) => Finish(h)
    case Readable(sid, input) => SawRead(h, sid, input)
  }

  /** A connection accepted with destination orig: over at once if the mux refuses the OPEN. */
  function Opened(sid: u16, fd: nat, orig: (Addr, u16), sent: bool): Story {
    var dst := Endpoint(0x01, orig.1, orig.0);
    var h := Story(fd, dst, false, 0, 0, [], false, [TcpOpen(sid, dst)], [], []);
    if sent then h else Finish(h)
  }

  function StepWorld(w: World, e: Event): World {
    var r := Step(w.t, e);
    match e
    case Accept(fd, orig, sent) =>
      var sid := AllocId(w.t);
      if orig.None? || sid == 0 then World(r.t, w.tcp)
      else World(r.t, w.tcp[sid := Opened(sid, fd, orig.value, sent).(out := r.out)])
    case _ =>
      var sid := StreamOfEvent(e);
      if sid.None? || sid.value !in w.t.tcp || sid.value !in w.tcp then World(r.t, w.tcp)
      else
        var h := w.tcp[sid.value];
        World(r.t, w.tcp[sid.value := Saw(h, e).(out := h.out + r.out)])
  }

  function RunWorld(w: World, es: seq<Event>): World
    decreases |es|
  {
    if es == [] then w else RunWorld(StepWorld(w, es[0]), es[1..])
  }

  lemma {:induction false} RunWorldIsRun(w: World, es: seq<Event>)
    ensures RunWorld(w, es).t == Run(w.t, es)
    decreases |es|
  {
    if es != [] {
      RunWorldIsRun(StepWorld(w, es[0]), es[1..]);
    }
  }

  // ----- what was done -----

  function FramesOf(out: seq<Out>): seq<Message> {
    if out == [] then [] else (if out[0].ToMux? then [out[0].msg] else []) + FramesOf(out[1..])
  }

  function OpsOf(out: seq<Out>): seq<Out> {
    if out == [] then [] else (if out[0].ShutdownWr? || out[0].CloseFd? then [out[0]] else []) + OpsOf(out[1..])
  }

  /** Nothing is injected, and only fd is written to. */
  predicate WritesOn(out: seq<Out>, fd: nat) {
    forall k | 0 <= k < |out| :: !out[k].Inject? && (out[k].LocalWrite? ==> out[k].fd == fd)
  }

  /** out does exactly these things. */
  ghost predicate Does(out: seq<Out>, fd: nat, frames: seq<Message>, ops: seq<Out>, bytes: seq<byte>) {
    FramesOf(out) == frames && OpsOf(out) == ops && LocalBytes(out) == bytes && WritesOn(out, fd)
  }

  lemma {:induction false} AppendDone(a: seq<Out>, b: seq<Out>)
    ensures FramesOf(a + b) == FramesOf(a) + FramesOf(b) && OpsOf(a + b) == OpsOf(a) + OpsOf(b)
    ensures LocalBytes(a + b) == LocalBytes(a) + LocalBytes(b)
  {
    if a == [] {
      assert a + b == b;
    } else {
      assert (a + b)[0] == a[0] && (a + b)[1..] == a[1..] + b;
      AppendDone(a[1..], b);
      Append3(if a[0].ToMux? then [a[0].msg] else [], FramesOf(a[1..]), FramesOf(b));
      Append3(if a[0].ShutdownWr? || a[0].CloseFd? then [a[0]] else [], OpsOf(a[1..]), OpsOf(b));
      Append3(if a[0].LocalWrite? then a[0].data else [], LocalBytes(a[1..]), LocalBytes(b));
    }
  }

  lemma Append3<T>(a: seq<T>, b: seq<T>, c: seq<T>)
    ensures a + (b + c) == a + b + c
  {
  }

  lemma DoesThen(a: seq<Out>, b: seq<Out>, fd: nat, f: seq<Message>, g: seq<Message>, o: seq<Out>, p: seq<Out>,
                 x: seq<byte>, y: seq<byte>)
    requires Does(a, fd, f, o, x) && Does(b, fd, g, p, y)
    ensures Does(a + b, fd, f + g, o + p, x + y)
  {
    AppendDone(a, b);
  }

  lemma DoesOne(o: Out, fd: nat)
    requires o.ToMux? || o == CloseFd(fd) || o == ShutdownWr(fd) || (o.LocalWrite? && o.fd == fd)
    ensures Does([o], fd, if o.ToMux? then [o.msg] else [], if o.CloseFd? || o.ShutdownWr? then [o] else [],
                 if o.LocalWrite? then o.data else [])
  {
    assert [o][1..] == [];
  }

  lemma DoesNothing(fd: nat)
    ensures Does([], fd, [], [], [])
  {
  }

  // ----- the loops -----

  /** The frames a read loop sends from answer k on. */
  lemma FramesNext(sid: u16, input: seq<Read>)
    requires input != []
    ensures GoesOn(input[0]) ==>
              ReadFrames(sid, input)
              == (if input[0].Chunk? then [TcpData(sid, input[0].data)] else []) + ReadFrames(sid, input[1..])
    ensures !GoesOn(input[0]) ==> ReadFrames(sid, input) == EndFrames(sid, Some(input[0]))
  {
    if GoesOn(input[0]) {
      var n := Upto(input[1..]);
      ReadOn(input);
      assert input[..n + 1][1..] == input[1..][..n] && input[..n + 1][0] == input[0];
    }
  }

  /** Whether the answer that ends a read loop ends the stream. */
  predicate Fatal(last: Option<Read>, closedRemote: bool) {
    last.Some? && (last.value.ReadFailed? || last.value.Chunk? || (last.value.Eof? && closedRemote))
  }

  function Close(fd: nat, over: bool): seq<Out> { if over then [CloseFd(fd)] else [] }

  lemma LoopEndDoes(t: Tables, sid: u16, input: seq<Read>, k: nat)
    requires sid in t.tcp && k < |input| && !GoesOn(input[k])
    ensures var fd := t.tcp[sid].fd;
            Does(ReadLoop(t, sid, input, k).out, fd, EndFrames(sid, Some(input[k])),
                 Close(fd, Fatal(Some(input[k]), t.tcp[sid].closedRemote)), [])
  {
    var fd := t.tcp[sid].fd;
    DoesOne(CloseFd(fd), fd);
    DoesNothing(fd);
    match input[k]
    case WouldBlock =>
    case Eof =>
      DoesOne(ToMux(TcpCloseWr(sid)), fd);
      DoesThen([ToMux(TcpCloseWr(sid))], [CloseFd(fd)], fd, [TcpCloseWr(sid)], [], [], [CloseFd(fd)], [], []);
    case ReadFailed =>
      DoesOne(ToMux(TcpRst(sid, 1)), fd);
      DoesThen([ToMux(TcpRst(sid, 1))], [CloseFd(fd)], fd, [TcpRst(sid, 1)], [], [], [CloseFd(fd)], [], []);
    case Chunk(data, _) => RefusedDoes(sid, fd, data);
  }

  lemma RefusedDoes(sid: u16, fd: nat, data: seq<byte>)
    ensures var d, r := TcpData(sid, data), TcpRst(sid, 0xFF);
            Does([ToMux(d), ToMux(r)] + [CloseFd(fd)], fd, [d, r], [CloseFd(fd)], [])
  {
    var d, r := TcpData(sid, data), TcpRst(sid, 0xFF);
    DoesOne(ToMux(d), fd);
    ResetDoes(sid, fd, 0xFF);
    DoesThen([ToMux(d)], [ToMux(r)] + [CloseFd(fd)], fd, [d], [r], [], [CloseFd(fd)], [], []);
    assert [ToMux(d)] + ([ToMux(r)] + [CloseFd(fd)]) == [ToMux(d), ToMux(r)] + [CloseFd(fd)] && [d] + [r] == [d, r];
  }

  /** Everything a read loop does: a frame per chunk, in order, then what its last answer calls for, and the
      socket is closed exactly if the stream ends. */
  lemma {:induction false} ReadLoopDoes(t: Tables, sid: u16, input: seq<Read>, k: nat)
    requires sid in t.tcp && k <= |input|
    ensures var fd := t.tcp[sid].fd;
            Does(ReadLoop(t, sid, input, k).out, fd, ReadFrames(sid, input[k..]),
                 Close(fd, Fatal(LastAnswer(input[k..]), t.tcp[sid].closedRemote)), [])
    decreases |input| - k
  {
    var fd := t.tcp[sid].fd;
    if k == |input| {
      DoesNothing(fd);
    } else {
      FramesNext(sid, input[k..]);
      assert input[k..][1..] == input[k + 1..];
      if !GoesOn(input[k]) {
        LoopEndDoes(t, sid, input, k);
        ReadLast(input[k..]);
      } else {
        ReadLoopDoes(t, sid, input, k + 1);
        ReadOn(input[k..]);
        if input[k].Chunk? {
          var m := TcpData(sid, input[k].data);
          DoesOne(ToMux(m), fd);
          DoesThen([ToMux(m)], ReadLoop(t, sid, input, k + 1).out, fd, [m], ReadFrames(sid, input[k + 1..]), [],
                   Close(fd, Fatal(LastAnswer(input[k + 1..]), t.tcp[sid].closedRemote)), [], []);
        }
      }
    }
  }

  lemma ConsDone(o: Out, rest: seq<Out>)
    ensures FramesOf([o] + rest) == (if o.ToMux? then [o.msg] else []) + FramesOf(rest)
    ensures OpsOf([o] + rest) == (if o.ShutdownWr? || o.CloseFd? then [o] else []) + OpsOf(rest)
    ensures LocalBytes([o] + rest) == (if o.LocalWrite? then o.data else []) + LocalBytes(rest)
  {
    assert ([o] + rest)[1..] == rest;
  }

  /** One pass of the loop, in both its effect and its count. */
  lemma WriteNext(t: Tables, sid: u16, data: seq<byte>, answers: seq<Wrote>, off: nat, k: nat)
    requires sid in t.tcp && off < |data|
    ensures var a := WroteAt(answers, k, |data| - off);
            var r, takes := WriteLoop(t, sid, data, answers, off, k), Takes(|data| - off, answers, k);
            && (a.WriteInterrupted? ==>
                  r == WriteLoop(t, sid, data, answers, off, k + 1) && takes == Takes(|data| - off, answers, k + 1))
            && (a.WriteFailed? ==>
                  && r.t == FreeTcp(t, sid).t
                  && r.out == [ToMux(TcpRst(sid, RST_REASON_PEER_RESET))] + [CloseFd(t.tcp[sid].fd)]
                  && takes == (0, true))
            && (a.Took? ==>
                  var next := WriteLoop(t, sid, data, answers, off + a.n, k + 1);
                  var rest := Takes(|data| - off - a.n, answers, k + 1);
                  && r == Result(next.t, [LocalWrite(t.tcp[sid].fd, data[off..off + a.n])] + next.out)
                  && takes == (a.n + rest.0, rest.1))
  {
  }

  lemma {:induction false} WriteFrames(t: Tables, sid: u16, data: seq<byte>, answers: seq<Wrote>, off: nat, k: nat)
    requires sid in t.tcp && off <= |data|
    ensures var failed := Takes(|data| - off, answers, k).1;
            var r := WriteLoop(t, sid, data, answers, off, k);
            && FramesOf(r.out) == (if failed then [TcpRst(sid, 0x0001)] else [])
            && OpsOf(r.out) == Close(t.tcp[sid].fd, failed) && r.t == (if failed then FreeTcp(t, sid).t else t)
    decreases if k < |answers| then |answers| - k else 0, |data| - off
  {
    if off < |data| {
      var a := WroteAt(answers, k, |data| - off);
      WriteNext(t, sid, data, answers, off, k);
      if a.WriteInterrupted? {
        WriteFrames(t, sid, data, answers, off, k + 1);
      } else if a.WriteFailed? {
        ResetDoes(sid, t.tcp[sid].fd, 0x0001);
      } else {
        WriteFrames(t, sid, data, answers, off + a.n, k + 1);
        var next := WriteLoop(t, sid, data, answers, off + a.n, k + 1);
        ConsDone(LocalWrite(t.tcp[sid].fd, data[off..off + a.n]), next.out);
      }
    }
  }

  lemma TookBytes(fd: nat, data: seq<byte>, off: nat, n: nat, m: nat, rest: seq<Out>)
    requires off + n + m <= |data| && LocalBytes(rest) == data[off + n..off + n + m]
    ensures LocalBytes([LocalWrite(fd, data[off..off + n])] + rest) == data[off..off + n + m]
  {
    ConsDone(LocalWrite(fd, data[off..off + n]), rest);
    assert data[off..off + n] + data[off + n..off + n + m] == data[off..off + n + m];
  }

  lemma {:induction false} WriteBytes(t: Tables, sid: u16, data: seq<byte>, answers: seq<Wrote>, off: nat, k: nat)
    requires sid in t.tcp && off <= |data|
    ensures LocalBytes(WriteLoop(t, sid, data, answers, off, k).out)
         == data[off..off + Takes(|data| - off, answers, k).0]
    decreases if k < |answers| then |answers| - k else 0, |data| - off
  {
    if off < |data| {
      var a := WroteAt(answers, k, |data| - off);
      WriteNext(t, sid, data, answers, off, k);
      if a.WriteInterrupted? {
        WriteBytes(t, sid, data, answers, off, k + 1);
      } else if a.WriteFailed? {
        ResetDoes(sid, t.tcp[sid].fd, 0x0001);
      } else {
        var m := Takes(|data| - off - a.n, answers, k + 1).0;
        WriteBytes(t, sid, data, answers, off + a.n, k + 1);
        TookBytes(t.tcp[sid].fd, data, off, a.n, m, WriteLoop(t, sid, data, answers, off + a.n, k + 1).out);
      }
    }
  }

  lemma {:induction false} WriteOn(t: Tables, sid: u16, data: seq<byte>, answers: seq<Wrote>, off: nat, k: nat)
    requires sid in t.tcp && off <= |data|
    ensures WritesOn(WriteLoop(t, sid, data, answers, off, k).out, t.tcp[sid].fd)
    decreases if k < |answers| then |answers| - k else 0, |data| - off
  {
    if off < |data| {
      var a := WroteAt(answers, k, |data| - off);
      WriteNext(t, sid, data, answers, off, k);
      if a.WriteInterrupted? {
        WriteOn(t, sid, data, answers, off, k + 1);
      } else if a.Took? {
        WriteOn(t, sid, data, answers, off + a.n, k + 1);
      }
    }
  }

  /** Everything a write loop does: the socket gets what it takes, and if a write fails the mux gets an RST, the
      socket is closed and the stream freed. */
  lemma WriteLoopDoes(t: Tables, sid: u16, data: seq<byte>, answers: seq<Wrote>)
    requires sid in t.tcp
    ensures var fd := t.tcp[sid].fd;
            var (n, failed) := Takes(|data|, answers, 0);
            var r := WriteLoop(t, sid, data, answers, 0, 0);
            && Does(r.out, fd, if failed then [TcpRst(sid, 0x0001)] else [], Close(fd, failed), data[..n])
            && r.t == if failed then FreeTcp(t, sid).t else t
  {
    WriteFrames(t, sid, data, answers, 0, 0);
    WriteBytes(t, sid, data, answers, 0, 0);
    WriteOn(t, sid, data, answers, 0, 0);
  }

  lemma ResetDoes(sid: u16, fd: nat, reason: u16)
    ensures Does([ToMux(TcpRst(sid, reason))] + [CloseFd(fd)], fd, [TcpRst(sid, reason)], [CloseFd(fd)], [])
  {
    DoesOne(ToMux(TcpRst(sid, reason)), fd);
    DoesOne(CloseFd(fd), fd);
    DoesThen([ToMux(TcpRst(sid, reason))], [CloseFd(fd)], fd, [TcpRst(sid, reason)], [], [], [CloseFd(fd)], [], []);
  }

  // ----- the invariant -----

  /** The table entry the story calls for. */
  function EntryOf(sid: u16, h: Story): TcpStream { TcpStream(sid, h.fd, h.acked, h.eofs > 0, h.closeWrs > 0) }

  ghost predicate StoryInv(w: World, sid: u16)
    requires sid in w.tcp
  {
    var h := w.tcp[sid];
    && (sid in w.t.tcp <==> !h.over)
    && (!h.over ==> w.t.tcp[sid] == EntryOf(sid, h))
    && Does(h.out, h.fd, h.frames, h.ops, h.taken)
  }

  ghost predicate Told(w: World) {
    && Inv(w.t)
    && (forall sid <- w.t.tcp :: sid in w.tcp)
    && forall sid <- w.tcp :: StoryInv(w, sid)
  }

  /** An event of a live stream: the entry becomes the one its story calls for, and what is done is what the
      story gained. */
  ghost predicate Follows(t: Tables, e: Event, sid: u16, h: Story)
    requires StreamOfEvent(e) == Some(sid)
  {
    var r := Step(t, e);
    var h' := Saw(h, e);
    && h'.fd == h.fd
    && r.t == t.(tcp := r.t.tcp) && r.t.tcp - {sid} == t.tcp - {sid}
    && (sid in r.t.tcp <==> !h'.over)
    && (!h'.over ==> r.t.tcp[sid] == EntryOf(sid, h'))
    && Does(h.out + r.out, h.fd, h'.frames, h'.ops, h'.taken)
  }

  lemma Goes(t: Tables, e: Event, sid: u16, h: Story, f: seq<Message>, o: seq<Out>, x: seq<byte>)
    requires StreamOfEvent(e) == Some(sid) && Does(h.out, h.fd, h.frames, h.ops, h.taken)
    requires Does(Step(t, e).out, h.fd, f, o, x)
    ensures Does(h.out + Step(t, e).out, h.fd, h.frames + f, h.ops + o, h.taken + x)
  {
    DoesThen(h.out, Step(t, e).out, h.fd, h.frames, f, h.ops, o, h.taken, x);
  }

  ghost predicate LiveStory(t: Tables, sid: u16, h: Story) {
    && Inv(t) && sid in t.tcp && !h.over && t.tcp[sid] == EntryOf(sid, h)
    && Does(h.out, h.fd, h.frames, h.ops, h.taken)
  }

  lemma SameSequences(h: Story)
    ensures h.frames + [] == h.frames && h.ops + [] == h.ops && h.taken + [] == h.taken
  {
  }

  lemma OpenAckFollows(t: Tables, sid: u16, h: Story, status: u16)
    requires LiveStory(t, sid, h)
    ensures Follows(t, OpenAck(sid, status), sid, h)
  {
    var e := OpenAck(sid, status);
    SameSequences(h);
    DoesNothing(h.fd);
    DoesOne(CloseFd(h.fd), h.fd);
    Goes(t, e, sid, h, [], Close(h.fd, status != 0), []);
  }

  lemma RstFollows(t: Tables, sid: u16, h: Story)
    requires LiveStory(t, sid, h)
    ensures Follows(t, Rst(sid), sid, h)
  {
    SameSequences(h);
    DoesOne(CloseFd(h.fd), h.fd);
    Goes(t, Rst(sid), sid, h, [], [CloseFd(h.fd)], []);
  }

  lemma CloseWrDoes(fd: nat, over: bool)
    ensures Does([ShutdownWr(fd)] + Close(fd, over), fd, [], [ShutdownWr(fd)] + Close(fd, over), [])
  {
    DoesOne(ShutdownWr(fd), fd);
    DoesOne(CloseFd(fd), fd);
    DoesNothing(fd);
    DoesThen([ShutdownWr(fd)], Close(fd, over), fd, [], [], [ShutdownWr(fd)], Close(fd, over), [], []);
  }

  lemma CloseWrFollows(t: Tables, sid: u16, h: Story)
    requires LiveStory(t, sid, h)
    ensures Follows(t, CloseWr(sid), sid, h)
  {
    SameSequences(h);
    CloseWrDoes(h.fd, h.eofs > 0);
    Goes(t, CloseWr(sid), sid, h, [], [ShutdownWr(h.fd)] + Close(h.fd, h.eofs > 0), []);
    Append3(h.ops, [ShutdownWr(h.fd)], Close(h.fd, h.eofs > 0));
  }

  lemma DataFollows(t: Tables, sid: u16, h: Story, data: seq<byte>, answers: seq<Wrote>)
    requires LiveStory(t, sid, h)
    ensures Follows(t, Data(sid, data, answers), sid, h)
  {
    var e := Data(sid, data, answers);
    var (n, failed) := Takes(|data|, answers, 0);
    SameSequences(h);
    WriteLoopDoes(t, sid, data, answers);
    Goes(t, e, sid, h, if failed then [TcpRst(sid, 0x0001)] else [], Close(h.fd, failed), data[..n]);
  }

  lemma ReadableFollows(t: Tables, sid: u16, h: Story, input: seq<Read>)
    requires LiveStory(t, sid, h)
    ensures Follows(t, Readable(sid, input), sid, h)
  {
    var e := Readable(sid, input);
    SameSequences(h);
    assert input[0..] == input;
    ReadLoopDoes(t, sid, input, 0);
    ReadLoopForwards(t, sid, input, 0);
    Goes(t, e, sid, h, ReadFrames(sid, input), Close(h.fd, Fatal(LastAnswer(input), h.closeWrs > 0)), []);
    LastEnds(input);
  }

  lemma LastEnds(input: seq<Read>)
    ensures LastAnswer(input).Some? ==> !GoesOn(LastAnswer(input).value)
  {
  }

  lemma EventFollows(t: Tables, e: Event, sid: u16, h: Story)
    requires StreamOfEvent(e) == Some(sid) && LiveStory(t, sid, h)
    ensures Follows(t, e, sid, h)
  {
    match e
    case OpenAck(_, status) => OpenAckFollows(t, sid, h, status);
    case Data(_, data, answers) => DataFollows(t, sid, h, data, answers);
    case CloseWr(_) => CloseWrFollows(t, sid, h);
    case Rst(_) => RstFollows(t, sid, h);
    case Readable(_, input) => ReadableFollows(t, sid, h, input);
  }

  // ----- the theorem -----

  /** A message for an id that no stream of its kind has does nothing. */
  lemma UnknownIgnored(t: Tables, e: Event)
    requires match e
             case BindAck(sid, _) => sid !in t.udp
             case UdpCloseIn(sid) => sid !in t.udp
             case UdpIn(sid, _, _, _) => sid !in t.udp
             case _ => StreamOfEvent(e).Some? && StreamOfEvent(e).value !in t.tcp
    ensures Step(t, e) == Result(t, [])
  {
  }

  /** What an event that is not about a live TCP stream leaves alone. */
  lemma OthersKeepTcp(t: Tables, e: Event)
    requires Inv(t) && !e.Accept? && (StreamOfEvent(e).None? || StreamOfEvent(e).value !in t.tcp)
    ensures Step(t, e).t.tcp == t.tcp
  {
  }

  lemma StreamEventKeeps(w: World, e: Event, sid: u16)
    requires Told(w) && StreamOfEvent(e) == Some(sid) && sid in w.t.tcp
    ensures Told(StepWorld(w, e))
  {
    StepKeeps(w.t, e);
    assert StoryInv(w, sid);
    EventFollows(w.t, e, sid, w.tcp[sid]);
    var w' := StepWorld(w, e);
    forall id: u16 | id != sid ensures SameEntry(w.t.tcp, w'.t.tcp, id) {
      OtherEntry(w.t.tcp, w'.t.tcp, sid, id);
    }
    forall id <- w'.tcp ensures StoryInv(w', id) {
      if id != sid {
        assert StoryInv(w, id) && SameEntry(w.t.tcp, w'.t.tcp, id);
      }
    }
    forall id <- w'.t.tcp ensures id in w'.tcp {
      assert id == sid || SameEntry(w.t.tcp, w'.t.tcp, id);
    }
  }

  predicate SameEntry(m: map<u16, TcpStream>, m': map<u16, TcpStream>, id: u16) {
    (id in m' <==> id in m) && (id in m ==> m'[id] == m[id])
  }

  lemma OtherEntry(m: map<u16, TcpStream>, m': map<u16, TcpStream>, sid: u16, id: u16)
    requires m' - {sid} == m - {sid} && id != sid
    ensures SameEntry(m, m', id)
  {
    assert id in m' <==> id in m' - {sid};
    assert id in m <==> id in m - {sid};
  }

  lemma AcceptDoes(t: Tables, fd: nat, orig: (Addr, u16), sent: bool)
    requires Inv(t) && AllocId(t) != 0
    ensures var r := AcceptStep(t, fd, Some(orig), sent);
            var sid := AllocId(t);
            var h := Opened(sid, fd, orig, sent);
            && sid !in t.tcp && Does(r.out, fd, h.frames, h.ops, [])
            && r.t.tcp == if sent then t.tcp[sid := EntryOf(sid, h)] else t.tcp
  {
    AllocExactly(t);
    var sid := AllocId(t);
    var open := ToMux(TcpOpen(sid, Endpoint(0x01, orig.1, orig.0)));
    DoesOne(open, fd);
    DoesOne(CloseFd(fd), fd);
    DoesThen([open], [CloseFd(fd)], fd, [open.msg], [], [], [CloseFd(fd)], [], []);
    assert [open] + [] == [open];
  }

  /** A connection opens a stream exactly if its destination is known and an id is left; otherwise it is closed
      and nothing else happens. */
  lemma AcceptedExactly(t: Tables, fd: nat, orig: Option<(Addr, u16)>, sent: bool)
    requires Inv(t)
    ensures var r := Step(t, Accept(fd, orig, sent));
            && (orig.None? || AllocId(t) == 0 ==> r == Result(t, [CloseFd(fd)]))
            && (orig.Some? && AllocId(t) != 0 ==>
                  && r.t.nextId == AllocId(t) + 1 && (AllocId(t) in r.t.tcp <==> sent)
                  && FramesOf(r.out) == [TcpOpen(AllocId(t), Endpoint(0x01, orig.value.1, orig.value.0))]
                  && OpsOf(r.out) == Close(fd, !sent) && LocalBytes(r.out) == [])
  {
    if orig.Some? && AllocId(t) != 0 {
      AcceptDoes(t, fd, orig.value, sent);
    }
  }

  lemma AcceptKeepsStories(w: World, fd: nat, orig: Option<(Addr, u16)>, sent: bool)
    requires Told(w)
    ensures Told(StepWorld(w, Accept(fd, orig, sent)))
  {
    StepKeeps(w.t, Accept(fd, orig, sent));
    var sid := AllocId(w.t);
    var w' := StepWorld(w, Accept(fd, orig, sent));
    if orig.Some? && sid != 0 {
      AcceptDoes(w.t, fd, orig.value, sent);
    }
    forall id <- w'.tcp ensures StoryInv(w', id) {
      if id in w.tcp {
        assert StoryInv(w, id);
      }
    }
  }

  lemma StepTold(w: World, e: Event)
    requires Told(w)
    ensures Told(StepWorld(w, e))
  {
    if e.Accept? {
      AcceptKeepsStories(w, e.fd, e.orig, e.sent);
    } else if StreamOfEvent(e).Some? && StreamOfEvent(e).value in w.t.tcp {
      StreamEventKeeps(w, e, StreamOfEvent(e).value);
    } else {
      StepKeeps(w.t, e);
      OthersKeepTcp(w.t, e);
      var w' := StepWorld(w, e);
      forall id <- w'.tcp ensures StoryInv(w', id) {
        assert StoryInv(w, id);
      }
    }
  }

  lemma {:induction false} RunTold(w: World, es: seq<Event>)
    requires Told(w)
    ensures Told(RunWorld(w, es))
    decreases |es|
  {
    if es != [] {
      StepTold(w, es[0]);
      RunTold(StepWorld(w, es[0]), es[1..]);
    }
  }

  /** On every run, for every TCP stream ever opened: while its story goes on, the table has its socket, its
      acknowledgement and its half-closes; and what was sent on the mux for it, in order, what was done to
      its socket, in order, and the bytes its socket took are exactly what its story calls for: an OPEN to
      where the connection was going, a TCP_DATA per chunk read, a CLOSE_WR per end of input and an RST per
      failure; a shutdown per CLOSE_WR, and one close at the end. */
  lemma StoriesHold(isTun: bool, es: seq<Event>, sid: u16)
    ensures var w := RunWorld(World(Fresh(isTun), map[]), es);
            && w.t == Run(Fresh(isTun), es)
            && (sid in w.t.tcp ==> sid in w.tcp)
            && (sid in w.tcp ==>
                  var h := w.tcp[sid];
                  && (sid in w.t.tcp <==> !h.over) && (!h.over ==> w.t.tcp[sid] == EntryOf(sid, h))
                  && Does(h.out, h.fd, h.frames, h.ops, h.taken))
  {
    var w := World(Fresh(isTun), map[]);
    Reachable(isTun, []);
    RunTold(w, es);
    RunWorldIsRun(w, es);
  }
}
