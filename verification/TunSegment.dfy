/** panctl/tun_tcp.c: the packets it writes and reads. */
module TunSegment {
  import opened Bytes
  import opened InternetChecksum
  import opened Ipv4
  import Frame

  const TCP_HDR_MIN := 20
  const TCP_FLAG_FIN: byte := 0x01
  const TCP_FLAG_SYN: byte := 0x02
  const TCP_FLAG_RST: byte := 0x04
  const TCP_FLAG_PSH: byte := 0x08
  const TCP_FLAG_ACK: byte := 0x10
  const OUR_MSS := 900
  const OUR_WINDOW: u16 := 32768
  const TUN_AF_HDR := 4

  /** flags & bit, for a single bit. */
  predicate Has(flags: byte, bit: byte)
    requires bit != 0
  {
    flags / bit % 2 == 1
  }

  datatype TcpState = Closed | SynRcvd | Estab | FinLocal | FinRemote | Closing

  /** struct tcp_conn */
  datatype Conn = Conn(state: TcpState, streamId: u16, srcIp: Addr, srcPort: u16, dstIp: Addr, dstPort: u16,
                       peerSeqNext: u32, ourSeqNext: u32, ipId: u16)

  /** The connection after a packet was built for it. */
  function Bump(c: Conn): Conn { c.(ipId := Low16(c.ipId + 1)) }

  // ----- layout -----

  /** The TCP header of a segment for c, its options and its payload, with checksum field sum. */
  function TcpBytes(c: Conn, flags: byte, payload: seq<byte>, sum: u16): (s: seq<byte>)
    ensures |s| == TcpHeaderLen(flags) + |payload|
  {
    U16Be(c.dstPort) + U16Be(c.srcPort) + U32Be(c.ourSeqNext) + U32Be(c.peerSeqNext)
    + [TcpHeaderLen(flags) / 4 * 16, flags] + U16Be(OUR_WINDOW) + U16Be(sum) + U16Be(0)
    + Options(flags) + payload
  }

  function TcpHeaderLen(flags: byte): nat { TCP_HDR_MIN + if Has(flags, TCP_FLAG_SYN) then 4 else 0 }

  /** The MSS option of a SYN. */
  function Options(flags: byte): (s: seq<byte>)
    ensures |s| == TcpHeaderLen(flags) - TCP_HDR_MIN
  {
    if Has(flags, TCP_FLAG_SYN) then [2, 4] + U16Be(OUR_MSS) else []
  }

  /** tcp_checksum, which gives up on segments larger than its scratch buffer. */
  function TcpChecksum(src: Addr, dst: Addr, tcp: seq<byte>): u16 {
    if |tcp| > 1500 then 0 else Checksum(Pseudo(src, dst, IPPROTO_TCP, |tcp|) + tcp)
  }

  function TcpSegment(c: Conn, flags: byte, payload: seq<byte>): seq<byte> {
    TcpBytes(c, flags, payload, TcpChecksum(c.dstIp, c.srcIp, TcpBytes(c, flags, payload, 0)))
  }

  /** The IPv4 packet from the remote end to the local one. */
  function Packet(c: Conn, flags: byte, payload: seq<byte>): (s: seq<byte>)
    ensures |s| == IPV4_HEADER_MIN + TcpHeaderLen(flags) + |payload|
  {
    IpHeaderChecked(Low16(IPV4_HEADER_MIN + TcpHeaderLen(flags) + |payload|),
                    c.ipId, 0x4000, 64, IPPROTO_TCP, c.dstIp, c.srcIp)
    + TcpSegment(c, flags, payload)
  }

  const AF_INET_HDR: seq<byte> := [0, 0, 0, 2]

  /** What build_segment leaves in its buffer. */
  function Framed(c: Conn, flags: byte, payload: seq<byte>): seq<byte> {
    AF_INET_HDR + Packet(c, flags, payload)
  }

  // ----- reading -----

  datatype TcpPacket = TcpPacket(srcIp: Addr, srcPort: u16, dstIp: Addr, dstPort: u16, seqNo: u32, flags: byte,
                                 payload: seq<byte>)

  /** The checks and field reads at the head of tun_tcp_handle_packet. */
  function ParseTcp(ip: seq<byte>): (r: Frame.Option<TcpPacket>)
    ensures r.Some? ==> IPV4_HEADER_MIN + TCP_HDR_MIN + |r.value.payload| <= |ip|
    ensures r.Some? ==> |r.value.payload| <= 0xFFFF - IPV4_HEADER_MIN - TCP_HDR_MIN
  {
    if |ip| < IPV4_HEADER_MIN then Frame.None
    else if ip[0] / 16 != 4 then Frame.None
    else
      var hdr := ip[0] % 16 * 4;
      if hdr < IPV4_HEADER_MIN || hdr > |ip| then Frame.None
      else if ip[9] != IPPROTO_TCP then Frame.None
      else
        var totalLen := ReadU16(ip, 2);
        if totalLen < hdr || totalLen > |ip| then Frame.None
        else if totalLen - hdr < TCP_HDR_MIN then Frame.None
        else
          var tcp := ip[hdr..totalLen];
          var tcpHdr := tcp[12] / 16 * 4;
          if tcpHdr < TCP_HDR_MIN || tcpHdr > |tcp| then Frame.None
          else Frame.Some(TcpPacket(ip[12..16], ReadU16(tcp, 0), ip[16..20], ReadU16(tcp, 2), ReadU32(tcp, 4),
                                    tcp[13], tcp[tcpHdr..]))
  }

  // ----- what is written is valid and says what it should -----

  lemma TcpSegmentValid(c: Conn, flags: byte, payload: seq<byte>)
    requires TcpHeaderLen(flags) + |payload| <= 1500
    ensures var tcp := TcpSegment(c, flags, payload);
            Checksum(Pseudo(c.dstIp, c.srcIp, IPPROTO_TCP, |tcp|) + tcp) == 0
  {
    var zeroed := TcpBytes(c, flags, payload, 0);
    var pseudo := Pseudo(c.dstIp, c.srcIp, IPPROTO_TCP, |zeroed|);
    var sum := TcpChecksum(c.dstIp, c.srcIp, zeroed);
    SelfValidates(pseudo + zeroed, 28, sum);
    PatchSum(c, flags, payload, sum);
    assert Overwrite(pseudo + zeroed, 28, U16Be(sum)) == pseudo + Overwrite(zeroed, 16, U16Be(sum));
  }

  lemma PatchSum(c: Conn, flags: byte, payload: seq<byte>, sum: u16)
    ensures var zeroed := TcpBytes(c, flags, payload, 0);
            zeroed[16] == 0 && zeroed[17] == 0 && Overwrite(zeroed, 16, U16Be(sum)) == TcpBytes(c, flags, payload, sum)
  {
    var head := U16Be(c.dstPort) + U16Be(c.srcPort) + U32Be(c.ourSeqNext) + U32Be(c.peerSeqNext)
                + [TcpHeaderLen(flags) / 4 * 16, flags] + U16Be(OUR_WINDOW);
    var tail := U16Be(0) + Options(flags) + payload;
    assert TcpBytes(c, flags, payload, 0) == head + U16Be(0) + tail;
    assert TcpBytes(c, flags, payload, sum) == head + U16Be(sum) + tail;
  }

  /** Both checksums of every segment that fits tcp_checksum's scratch area check to 0. */
  lemma PacketValid(c: Conn, flags: byte, payload: seq<byte>)
    requires TcpHeaderLen(flags) + |payload| <= 1500
    ensures var p := Packet(c, flags, payload);
            && Checksum(p[..IPV4_HEADER_MIN]) == 0
            && Checksum(Pseudo(c.dstIp, c.srcIp, IPPROTO_TCP, |p| - IPV4_HEADER_MIN) + p[IPV4_HEADER_MIN..]) == 0
  {
    var p := Packet(c, flags, payload);
    var ip := IpHeaderChecked(Low16(|p|), c.ipId, 0x4000, 64, IPPROTO_TCP, c.dstIp, c.srcIp);
    assert p[..IPV4_HEADER_MIN] == ip && p[IPV4_HEADER_MIN..] == TcpSegment(c, flags, payload);
    IpHeaderValid(Low16(|p|), c.ipId, 0x4000, 64, IPPROTO_TCP, c.dstIp, c.srcIp);
    TcpSegmentValid(c, flags, payload);
  }

  lemma TcpFields(c: Conn, flags: byte, payload: seq<byte>, sum: u16)
    ensures var t := TcpBytes(c, flags, payload, sum);
            && ReadU16(t, 0) == c.dstPort && ReadU16(t, 2) == c.srcPort
            && ReadU32(t, 4) == c.ourSeqNext && ReadU32(t, 8) == c.peerSeqNext
            && t[12] == TcpHeaderLen(flags) * 4 && t[13] == flags && t[TcpHeaderLen(flags)..] == payload
  {
    var t := TcpBytes(c, flags, payload, sum);
    assert t[0..2] == U16Be(c.dstPort) && t[2..4] == U16Be(c.srcPort);
    assert t[4..8] == U32Be(c.ourSeqNext) && t[8..12] == U32Be(c.peerSeqNext);
    U16RoundTrip(c.dstPort, t[0..2]);
    U16RoundTrip(c.srcPort, t[2..4]);
    U32RoundTrip(c.ourSeqNext, t[4..8]);
    U32RoundTrip(c.peerSeqNext, t[8..12]);
  }

  lemma IpFields(c: Conn, flags: byte, payload: seq<byte>)
    requires IPV4_HEADER_MIN + TcpHeaderLen(flags) + |payload| <= 0xFFFF
    ensures var p := Packet(c, flags, payload);
            && p[0] == 0x45 && ReadU16(p, 2) == |p| && p[9] == IPPROTO_TCP
            && p[12..16] == c.dstIp && p[16..20] == c.srcIp && p[20..|p|] == TcpSegment(c, flags, payload)
  {
    var p := Packet(c, flags, payload);
    IpHeaderFields(|p|, c.ipId, 0x4000, 64, IPPROTO_TCP, c.dstIp, c.srcIp, TcpSegment(c, flags, payload));
  }

  /** Read by the same parser, a packet for c comes from c's remote end, goes to its local one, and
      carries c's sequence number, the flags and the payload. */
  lemma PacketRoundTrip(c: Conn, flags: byte, payload: seq<byte>)
    requires IPV4_HEADER_MIN + TcpHeaderLen(flags) + |payload| <= 0xFFFF
    ensures ParseTcp(Packet(c, flags, payload)) ==
            Frame.Some(TcpPacket(c.dstIp, c.dstPort, c.srcIp, c.srcPort, c.ourSeqNext, flags, payload))
  {
    IpFields(c, flags, payload);
    TcpFields(c, flags, payload, TcpChecksum(c.dstIp, c.srcIp, TcpBytes(c, flags, payload, 0)));
  }

  // ----- building in place -----

  /** tcp_checksum */
  method ComputeTcpChecksum(src: Addr, dst: Addr, tcp: seq<byte>) returns (c: u16)
    ensures c == TcpChecksum(src, dst, tcp)
  {
    if |tcp| > 1500 {
      return 0;
    }
    c := PseudoChecksum(src, dst, IPPROTO_TCP, tcp);
  }

  /** The TCP part of build_segment with a zeroed checksum, at offset off. */
  method WriteTcp(buf: array<byte>, off: nat, c: Conn, flags: byte, payload: seq<byte>)
    requires off + TcpHeaderLen(flags) + |payload| <= buf.Length
    modifies buf
    ensures buf[..] == Overwrite(old(buf[..]), off, TcpBytes(c, flags, payload, 0))
  {
    ghost var o := buf[..];
    WriteU16(buf, off, c.dstPort);
    WriteU16(buf, off + 2, c.srcPort);
    OverwriteAppend(o, off, U16Be(c.dstPort), U16Be(c.srcPort));
    ghost var w := U16Be(c.dstPort) + U16Be(c.srcPort);
    WriteU32(buf, off + 4, c.ourSeqNext);
    OverwriteAppend(o, off, w, U32Be(c.ourSeqNext));
    w := w + U32Be(c.ourSeqNext);
    WriteU32(buf, off + 8, c.peerSeqNext);
    OverwriteAppend(o, off, w, U32Be(c.peerSeqNext));
    w := w + U32Be(c.peerSeqNext);
    CopyInto(buf, off + 12, [TcpHeaderLen(flags) / 4 * 16, flags]);
    OverwriteAppend(o, off, w, [TcpHeaderLen(flags) / 4 * 16, flags]);
    w := w + [TcpHeaderLen(flags) / 4 * 16, flags];
    WriteU16(buf, off + 14, OUR_WINDOW);
    OverwriteAppend(o, off, w, U16Be(OUR_WINDOW));
    w := w + U16Be(OUR_WINDOW);
    WriteU16(buf, off + 16, 0);
    OverwriteAppend(o, off, w, U16Be(0));
    w := w + U16Be(0);
    WriteU16(buf, off + 18, 0);
    OverwriteAppend(o, off, w, U16Be(0));
    w := w + U16Be(0);
    CopyInto(buf, off + TCP_HDR_MIN, Options(flags));
    OverwriteAppend(o, off, w, Options(flags));
    w := w + Options(flags);
    CopyInto(buf, off + TcpHeaderLen(flags), payload);
    OverwriteAppend(o, off, w, payload);
  }

  /** The TCP part of build_segment, at offset off. */
  method WriteTcpSegment(buf: array<byte>, off: nat, c: Conn, flags: byte, payload: seq<byte>)
    requires off + TcpHeaderLen(flags) + |payload| <= buf.Length
    modifies buf
    ensures buf[..] == Overwrite(old(buf[..]), off, TcpSegment(c, flags, payload))
  {
    ghost var o := buf[..];
    WriteTcp(buf, off, c, flags, payload);
    ghost var tcp := TcpBytes(c, flags, payload, 0);
    OverwriteSlice(o, off, tcp);
    var sum := ComputeTcpChecksum(c.dstIp, c.srcIp, buf[off..off + TcpHeaderLen(flags) + |payload|]);
    WriteU16(buf, off + 16, sum);
    OverwritePatch(o, off, tcp, 16, U16Be(sum));
    PatchSum(c, flags, payload, sum);
  }

  /** build_segment into a buffer whose capacity is its length; c' is the connection after it, whose
      ip_id advances when it succeeds. */
  method BuildSegment(buf: array<byte>, c: Conn, flags: byte, payload: seq<byte>) returns (n: int, c': Conn)
    modifies buf
    ensures var total := TUN_AF_HDR + IPV4_HEADER_MIN + TcpHeaderLen(flags) + |payload|;
            n == if total <= buf.Length then total else -1
    ensures buf[..] == if n >= 0 then Overwrite(old(buf[..]), 0, Framed(c, flags, payload)) else old(buf[..])
    ensures c' == if n >= 0 then Bump(c) else c
  {
    ghost var o := buf[..];
    var total := TUN_AF_HDR + IPV4_HEADER_MIN + TcpHeaderLen(flags) + |payload|;
    if total > buf.Length {
      return -1, c;
    }
    CopyInto(buf, 0, AF_INET_HDR);
    var ipTotal := Low16(IPV4_HEADER_MIN + TcpHeaderLen(flags) + |payload|);
    WriteIpHeader(buf, TUN_AF_HDR, ipTotal, c.ipId, 0x4000, 64, IPPROTO_TCP, c.dstIp, c.srcIp);
    ghost var ip := IpHeaderChecked(ipTotal, c.ipId, 0x4000, 64, IPPROTO_TCP, c.dstIp, c.srcIp);
    OverwriteAppend(o, 0, AF_INET_HDR, ip);
    WriteTcpSegment(buf, TUN_AF_HDR + IPV4_HEADER_MIN, c, flags, payload);
    ghost var tcp := TcpSegment(c, flags, payload);
    OverwriteAppend(o, 0, AF_INET_HDR + ip, tcp);
    assert AF_INET_HDR + ip + tcp == AF_INET_HDR + (ip + tcp);
    n, c' := total, Bump(c);
  }
}
