/** Frame.kt, the peer's codec, on Kotlin's signed bytes and 32-bit Ints, and its agreement with
    frame.c and with the mux parser. */
module KotlinFrame {
  import opened Bytes
  import opened Frame
  import opened MuxSpec

  type Int32 = x: int | -0x8000_0000 <= x < 0x8000_0000
  type Int8 = x: int | -0x80 <= x < 0x80

  /** What a call ends in: a value, or one of the exceptions the code raises. */
  datatype Outcome<+T> = Returned(value: T) | IoFailure | IllegalArgument | IllegalState

  // ----- bytes -----

  /** toByte keeps the low eight bits, as a signed value. */
  function ToByte(x: Int32): Int8 { (x + 0x80) % 0x100 - 0x80 }

  /** toInt() and 0xFF */
  function Unsigned(b: Int8): byte { b % 0x100 }

  /** (x ushr 8) and 0xFF */
  function SecondByte(x: Int32): byte { x % 0x1_0000_0000 / 0x100 % 0x100 }

  /** x and 0xFF */
  function FirstByte(x: Int32): byte { x % 0x100 }

  /** A ByteArray as it goes over the wire, and back. */
  function Wire(bs: seq<Int8>): (s: seq<byte>)
    ensures |s| == |bs|
  {
    seq(|bs|, i requires 0 <= i < |bs| => Unsigned(bs[i]))
  }

  function Unwire(s: seq<byte>): (bs: seq<Int8>)
    ensures |bs| == |s|
  {
    seq(|s|, i requires 0 <= i < |s| => ToByte(s[i]))
  }

  lemma ByteRoundTrip(x: Int32, b: Int8)
    ensures Unsigned(ToByte(x)) == x % 0x100 && ToByte(Unsigned(b)) == b
  {
    var q := (x + 0x80) / 0x100;
    assert ToByte(x) == x - q * 0x100;
    assert Unsigned(b) == if b < 0 then b + 0x100 else b;
  }

  lemma WireRoundTrip(s: seq<byte>, bs: seq<Int8>)
    ensures Wire(Unwire(s)) == s && Unwire(Wire(bs)) == bs
  {
    forall i | 0 <= i < |s| ensures Unsigned(ToByte(s[i])) == s[i] { ByteRoundTrip(s[i], 0); }
    forall i | 0 <= i < |bs| ensures ToByte(Unsigned(bs[i])) == bs[i] { ByteRoundTrip(0, bs[i]); }
  }

  // ----- header and HELLO -----

  /** FrameCodec.header */
  function Header(kind: Int32, streamId: Int32, length: Int32): Outcome<seq<Int8>> {
    if !(0 <= streamId <= 0xFFFF) then IllegalArgument
    else if !(0 <= length <= FRAME_MAX_PAYLOAD) then IllegalArgument
    else Returned([ToByte(FirstByte(PROTO_VERSION)), ToByte(FirstByte(kind)),
                   ToByte(SecondByte(streamId)), ToByte(FirstByte(streamId)),
                   ToByte(SecondByte(length)), ToByte(FirstByte(length))])
  }

  datatype Hello = Hello(protoVer: Int32, flags: Int32, maxStreams: Int32, initialWinKib: Int32)

  function EncodeHello(h: Hello): seq<Int8> {
    [ToByte(FirstByte(h.protoVer)), ToByte(FirstByte(h.flags)),
     ToByte(SecondByte(h.maxStreams)), ToByte(FirstByte(h.maxStreams)),
     ToByte(SecondByte(h.initialWinKib)), ToByte(FirstByte(h.initialWinKib))]
  }

  function DecodeHello(p: seq<Int8>): Outcome<Hello> {
    if |p| != 6 then IoFailure
    else Returned(Hello.Hello(Unsigned(p[0]), Unsigned(p[1]), U16At(p, 2), U16At(p, 4)))
  }

  /** readU16BE: the high byte is shifted before the low one is or-ed in. */
  function U16At(p: seq<Int8>, i: nat): u16
    requires i + 2 <= |p|
  {
    (Unsigned(p[i]) as int) * 0x100 + Unsigned(p[i + 1])
  }

  lemma LowBytes(x: Int32)
    ensures SecondByte(x) == x % 0x1_0000 / 0x100 && FirstByte(x) == x % 0x1_0000 % 0x100
  {
    var y := x % 0x1_0000_0000;
    var p := x / 0x1_0000_0000;
    assert x == p * 0x1_0000_0000 + y;
    var q, r := y / 0x1_0000, y % 0x1_0000;
    assert x == (p * 0x1_0000 + q) * 0x1_0000 + r;
    assert x % 0x1_0000 == r;
    assert y / 0x100 == q * 0x100 + r / 0x100;
    var t := x / 0x100;
    assert r / 0x100 < 0x100 && x == ((p * 0x1_0000 + q) * 0x100 + r / 0x100) * 0x100 + r % 0x100;
  }

  /** Two stored bytes of an Int, as they go over the wire. */
  lemma StoredU16(x: Int32)
    ensures Unsigned(ToByte(SecondByte(x))) == U16Be(x % 0x1_0000)[0]
    ensures Unsigned(ToByte(FirstByte(x))) == U16Be(x % 0x1_0000)[1] == x % 0x100
  {
    LowBytes(x);
    ByteRoundTrip(SecondByte(x), 0);
    ByteRoundTrip(FirstByte(x), 0);
  }

  lemma Wire6(a: Int8, b: Int8, c: Int8, d: Int8, e: Int8, f: Int8)
    ensures Wire([a, b, c, d, e, f]) == [Unsigned(a), Unsigned(b), Unsigned(c), Unsigned(d), Unsigned(e), Unsigned(f)]
  {
  }

  lemma Be6(v: byte, k: byte, s: u16, n: u16)
    ensures [v, k] + U16Be(s) + U16Be(n) == [v, k, U16Be(s)[0], U16Be(s)[1], U16Be(n)[0], U16Be(n)[1]]
  {
  }

  lemma Stored6(v: Int32, k: Int32, s: Int32, n: Int32)
    ensures Wire([ToByte(FirstByte(v)), ToByte(FirstByte(k)), ToByte(SecondByte(s)), ToByte(FirstByte(s)),
                  ToByte(SecondByte(n)), ToByte(FirstByte(n))])
         == [v % 0x100, k % 0x100] + U16Be(s % 0x1_0000) + U16Be(n % 0x1_0000)
  {
    StoredU16(v);
    StoredU16(k);
    StoredU16(s);
    StoredU16(n);
    Wire6(ToByte(FirstByte(v)), ToByte(FirstByte(k)), ToByte(SecondByte(s)), ToByte(FirstByte(s)),
          ToByte(SecondByte(n)), ToByte(FirstByte(n)));
    Be6(v % 0x100, k % 0x100, s % 0x1_0000, n % 0x1_0000);
  }

  /** Both sides write byte-identical headers, and Kotlin refuses exactly what has no 16-bit form. */
  lemma HeadersAgree(kind: Int32, streamId: Int32, length: Int32)
    ensures var h := Header(kind, streamId, length);
            if 0 <= streamId <= 0xFFFF && 0 <= length <= 0xFFFF
            then h.Returned? && Wire(h.value) == HeaderBytes(kind % 0x100, streamId, length)
            else h == IllegalArgument
  {
    if 0 <= streamId <= 0xFFFF && 0 <= length <= 0xFFFF {
      Stored6(PROTO_VERSION, kind, streamId, length);
      SmallU16(streamId);
      SmallU16(length);
    }
  }

  lemma SmallU16(x: u16)
    ensures x % 0x1_0000 == x
  {
  }

  /** Both sides write byte-identical HELLOs for fields that fit, and both read any payload alike. */
  lemma HellosAgree(h: Hello, p: seq<Int8>)
    ensures Wire(EncodeHello(h)) == HelloBytes(HelloPayload(h.protoVer % 0x100, h.flags % 0x100,
                                                            h.maxStreams % 0x1_0000, h.initialWinKib % 0x1_0000))
    ensures var k, c := DecodeHello(p), Frame.DecodeHello(Wire(p));
            && (k.Returned? <==> c.Some?)
            && (k.Returned? ==>
                  c.value == HelloPayload(k.value.protoVer, k.value.flags, k.value.maxStreams, k.value.initialWinKib))
  {
    Stored6(h.protoVer, h.flags, h.maxStreams, h.initialWinKib);
  }

  // ----- endpoint -----

  datatype Endpoint = Endpoint(addrType: Int32, port: Int32, addr: seq<Int8>)

  /** The constructor's checks. */
  function MakeEndpoint(addrType: Int32, port: Int32, addr: seq<Int8>): Outcome<Endpoint> {
    if !(1 <= port <= 0xFFFF) then IllegalArgument
    else if addrType == ADDR_TYPE_IPV4 then
      if |addr| == 4 then Returned(Endpoint.Endpoint(addrType, port, addr)) else IllegalArgument
    else if addrType == ADDR_TYPE_IPV6 then
      if |addr| == 16 then Returned(Endpoint.Endpoint(addrType, port, addr)) else IllegalArgument
    else if addrType == ADDR_TYPE_DOMAIN then
      if |addr| > 0 then Returned(Endpoint.Endpoint(addrType, port, addr)) else IllegalArgument
    else IllegalState
  }

  predicate Constructed(ep: Endpoint) { MakeEndpoint(ep.addrType, ep.port, ep.addr) == Returned(ep) }

  /** encodeInto: the bytes it writes. */
  function EncodeEndpoint(ep: Endpoint): seq<Int8>
    requires |ep.addr| < 0x8000_0000
  {
    [ToByte(FirstByte(ep.addrType)), ToByte(SecondByte(ep.port)), ToByte(FirstByte(ep.port)),
     ToByte(FirstByte(|ep.addr|))] + ep.addr
  }

  /** Endpoint.decode: the endpoint and the offset behind it. */
  function DecodeEndpoint(p: seq<Int8>, offset: nat): Outcome<(Endpoint, nat)> {
    if offset + 4 > |p| then IoFailure
    else
      var addrLen := Unsigned(p[offset + 3]);
      var end := offset + 4 + addrLen;
      if end > |p| then IoFailure
      else match MakeEndpoint(Unsigned(p[offset]), U16At(p, offset + 1), p[offset + 4..end])
        case Returned(ep) => Returned((ep, end))
        case IoFailure => IoFailure
        case IllegalArgument => IllegalArgument
        case IllegalState => IllegalState
  }

  /** The C value of a Kotlin endpoint. */
  function InC(ep: Endpoint): Frame.Endpoint
    requires 0 <= ep.addrType < 0x100 && 0 <= ep.port <= 0xFFFF
  {
    Frame.Endpoint(ep.addrType, ep.port, Wire(ep.addr))
  }

  /** An endpoint Kotlin can construct, encoded by Kotlin, decodes in C to the same value exactly if
      its address has at most 16 bytes, as every IPv4 and IPv6 one has. */
  lemma KotlinToC(ep: Endpoint)
    requires Constructed(ep) && |ep.addr| < 0x8000_0000
    ensures Frame.DecodeEndpoint(Wire(EncodeEndpoint(ep)), 0) == Some((InC(ep), 4 + |ep.addr|)) <==> |ep.addr| <= 16
    ensures ep.addrType != ADDR_TYPE_DOMAIN ==> |ep.addr| <= 16
  {
    WireOfEndpoint(ep);
    if |ep.addr| <= 16 {
      DecodesWhole(Wire(EncodeEndpoint(ep)), InC(ep));
    }
  }

  lemma DecodesWhole(s: seq<byte>, ep: Frame.Endpoint)
    requires |s| == 4 + |ep.addr| && |ep.addr| <= 16
    requires s[0] == ep.addrType && s[1..3] == U16Be(ep.port) && s[3] == |ep.addr| && s[4..] == ep.addr
    ensures Frame.DecodeEndpoint(s, 0) == Some((ep, 4 + |ep.addr|))
  {
    U16RoundTrip(ep.port, s[1..3]);
    assert ReadU16(s, 1) == ReadU16(s[1..3], 0);
    assert s[4..4 + |ep.addr|] == s[4..];
  }

  lemma WireOfEndpoint(ep: Endpoint)
    requires 0 <= ep.addrType < 0x100 && 0 <= ep.port <= 0xFFFF && |ep.addr| < 0x8000_0000
    ensures var s := Wire(EncodeEndpoint(ep));
            && s[0] == ep.addrType && s[1..3] == U16Be(ep.port) && s[3] == |ep.addr| % 0x100 && s[4..] == Wire(ep.addr)
  {
    var a, b, c, d := ToByte(FirstByte(ep.addrType)), ToByte(SecondByte(ep.port)), ToByte(FirstByte(ep.port)),
                      ToByte(FirstByte(|ep.addr|));
    StoredByte(ep.addrType);
    StoredPort(ep.port);
    StoredByte(|ep.addr|);
    WireHead(a, b, c, d, ep.addr);
  }

  lemma StoredByte(x: Int32)
    ensures Unsigned(ToByte(FirstByte(x))) == x % 0x100
  {
    ByteRoundTrip(FirstByte(x), 0);
  }

  lemma StoredPort(x: u16)
    ensures [Unsigned(ToByte(SecondByte(x))), Unsigned(ToByte(FirstByte(x)))] == U16Be(x)
  {
    StoredU16(x);
    assert x % 0x1_0000 == x;
  }

  lemma WireHead(a: Int8, b: Int8, c: Int8, d: Int8, rest: seq<Int8>)
    ensures var s := Wire([a, b, c, d] + rest);
            && s[0] == Unsigned(a) && s[1..3] == [Unsigned(b), Unsigned(c)] && s[3] == Unsigned(d)
            && s[4..] == Wire(rest)
  {
  }

  /** The header and the address it announces are within the payload. */
  predicate Fits(p: seq<Int8>, offset: nat) {
    offset + 4 <= |p| && offset + 4 + Unsigned(p[offset + 3]) <= |p|
  }

  /** The port is nonzero and the type goes with the length. */
  predicate Sound(addrType: byte, port: u16, addrLen: nat) {
    && port != 0
    && (|| (addrType == ADDR_TYPE_IPV4 && addrLen == 4)
        || (addrType == ADDR_TYPE_IPV6 && addrLen == 16)
        || (addrType == ADDR_TYPE_DOMAIN && addrLen > 0))
  }

  predicate SoundAt(p: seq<Int8>, offset: nat)
    requires Fits(p, offset)
  {
    Sound(Unsigned(p[offset]), U16At(p, offset + 1), Unsigned(p[offset + 3]))
  }

  /** How Endpoint.decode ends on every payload: with IOException exactly if the payload is too short, and
      otherwise with an endpoint exactly if that is sound; else with an exception it does not declare. */
  lemma DecodeEndsAs(p: seq<Int8>, offset: nat)
    ensures var k := DecodeEndpoint(p, offset);
            && (k.IoFailure? <==> !Fits(p, offset))
            && (k.Returned? <==> Fits(p, offset) && SoundAt(p, offset))
            && (k.IllegalArgument? || k.IllegalState? <==> Fits(p, offset) && !SoundAt(p, offset))
  {
  }

  /** Such inputs: an IPv4 endpoint with an address of 20 bytes, one with port 0, and one of type 9. */
  lemma UndeclaredInputs(addr: seq<Int8>)
    requires |addr| == 20
    ensures DecodeEndpoint([1, 0, 80, 20] + addr, 0) == IllegalArgument
    ensures DecodeEndpoint([1, 0, 0, 4] + addr, 0) == IllegalArgument
    ensures DecodeEndpoint([9, 0, 80, 4] + addr, 0) == IllegalState
  {
  }

  /** On every payload: when Kotlin and C both decode an endpoint they agree on it and on where it
      ends; what C accepts, Kotlin accepts exactly if the port is nonzero and the type and length
      go together; what Kotlin accepts, C accepts exactly if the address has at most 16 bytes.
      Where only Kotlin refuses, it is by an unchecked exception, not by IOException. */
  lemma DecodersAgree(p: seq<Int8>, offset: nat)
    ensures var k, c := DecodeEndpoint(p, offset), Frame.DecodeEndpoint(Wire(p), offset);
            && (k.Returned? && c.Some? ==> InC(k.value.0) == c.value.0 && k.value.1 == offset + c.value.1)
            && (c.Some? ==> (k.Returned? <==> Sound(c.value.0.addrType, c.value.0.port, |c.value.0.addr|)))
            && (k.Returned? ==> (c.Some? <==> |k.value.0.addr| <= 16))
            && (c.Some? && !k.Returned? ==> k.IllegalArgument? || k.IllegalState?)
  {
    if offset + 4 <= |p| {
      var end := offset + 4 + Unsigned(p[offset + 3]);
      if end <= |p| {
        assert Wire(p)[offset + 4..end] == Wire(p[offset + 4..end]);
      }
    }
  }

  // ----- reading frames -----

  datatype RawFrame = RawFrame(version: byte, kind: byte, streamId: u16, payload: seq<Int8>)

  /** FrameCodec.read: null on a clean end of the stream, a failure when it ends inside a frame, or
      a frame and what is left. */
  datatype ReadResult = EndOfStream | Truncated | GotFrame(frame: RawFrame, rest: seq<byte>)

  function Read(s: seq<byte>): (r: ReadResult)
    ensures r.GotFrame? ==> |r.rest| < |s|
  {
    if |s| == 0 then EndOfStream
    else if |s| < FRAME_HEADER_SIZE then Truncated
    else
      var length := ReadU16(s, 4);
      if |s| < FRAME_HEADER_SIZE + length then Truncated
      else GotFrame(RawFrame(s[0], s[1], ReadU16(s, 2), Unwire(s[FRAME_HEADER_SIZE..FRAME_HEADER_SIZE + length])),
                 s[FRAME_HEADER_SIZE + length..])
  }

  /** Reading until the stream ends: the frames, and whether the end was clean. */
  function ReadAll(s: seq<byte>): (seq<RawFrame>, bool)
    decreases |s|
  {
    match Read(s)
    case EndOfStream => ([], true)
    case Truncated => ([], false)
    case GotFrame(f, rest) =>
      var (fs, clean) := ReadAll(rest);
      ([f] + fs, clean)
  }

  function RawOf(m: Message): RawFrame
    requires Sendable(m)
  {
    RawFrame(PROTO_VERSION, Kind(m), StreamOf(m), Unwire(PayloadBytes(m)))
  }

  function RawAll(ms: seq<Message>): seq<RawFrame>
    requires forall m <- ms :: Sendable(m)
  {
    if ms == [] then [] else [RawOf(ms[0])] + RawAll(ms[1..])
  }

  lemma ReadOne(m: Message, tail: seq<byte>)
    requires Sendable(m)
    ensures Read(Encode(m) + tail) == GotFrame(RawOf(m), tail)
  {
    var f := Encode(m);
    FrameParts(Kind(m), StreamOf(m), PayloadBytes(m));
    HeadStable(f, tail);
    assert (f + tail)[FRAME_HEADER_SIZE..|f|] == PayloadBytes(m);
    assert (f + tail)[|f|..] == tail;
    assert DecodeHeader(f + tail) == DecodeHeader(f);
  }

  /** Everything the C senders send, in any number and of all 14 kinds, Kotlin reads frame by frame
      with the same kind, stream and payload, up to a clean end. */
  lemma {:induction false} KotlinReadsWhatCSends(ms: seq<Message>)
    requires forall m <- ms :: Sendable(m)
    ensures ReadAll(EncodeAll(ms)) == (RawAll(ms), true)
  {
    if ms != [] {
      ReadOne(ms[0], EncodeAll(ms[1..]));
      KotlinReadsWhatCSends(ms[1..]);
    }
  }

  /** Conversely, both sides cut any byte stream into the same frames: Kotlin's next frame is the one
      at the head of the C parser's stream, and Kotlin has none exactly if C is still waiting. */
  lemma FramesAgree(s: seq<byte>)
    ensures Read(s).GotFrame? <==> HasFrame(s)
    ensures HasFrame(s) ==>
              var f := Read(s).frame;
              && Read(s).rest == s[FrameSize(s)..]
              && DispatchHead(s) == Dispatch(FrameHeader(f.version, f.kind, f.streamId, |f.payload|), Wire(f.payload))
    ensures Read(s) == EndOfStream <==> s == []
  {
    if HasFrame(s) {
      WireRoundTrip(s[FRAME_HEADER_SIZE..FrameSize(s)], []);
    }
  }
}
