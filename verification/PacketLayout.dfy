/** What the packets the parsers accept look like (section 3.1 of RFC 791, RFC 768, section 3.1 of
    RFC 9293), stated without the parsers: headers with any options, and anything behind the packet. */
module PacketLayout {
  import opened Bytes
  import opened Frame
  import opened Ipv4
  import opened TunSegment
  import InternetChecksum

  function Hi(v: u16): byte { v / 0x100 }

  function Lo(v: u16): byte { v % 0x100 }

  function Quad(v: u32): seq<byte> { [v / 0x100_0000, v / 0x1_0000 % 0x100, v / 0x100 % 0x100, v % 0x100] }

  /** Options fill whole words, ten at most. */
  predicate Words(options: seq<byte>) { |options| % 4 == 0 && |options| <= 40 }

  datatype IpHdr = IpHdr(tos: byte, total: u16, id: u16, frag: u16, ttl: byte, proto: byte, sum: u16,
                         src: Addr, dst: Addr, options: seq<byte>)

  function IpBytes(h: IpHdr): (s: seq<byte>)
    requires Words(h.options)
    ensures |s| == 20 + |h.options|
  {
    [0x45 + |h.options| / 4, h.tos, Hi(h.total), Lo(h.total), Hi(h.id), Lo(h.id), Hi(h.frag), Lo(h.frag),
     h.ttl, h.proto, Hi(h.sum), Lo(h.sum)] + h.src + h.dst + h.options
  }

  datatype TcpHdr = TcpHdr(srcPort: u16, dstPort: u16, seqNo: u32, ackNo: u32, reserved: byte, flags: byte,
                           window: u16, sum: u16, urgent: u16, options: seq<byte>)

  function TcpBytes(t: TcpHdr, payload: seq<byte>): (s: seq<byte>)
    requires Words(t.options) && t.reserved < 16
    ensures |s| == 20 + |t.options| + |payload|
  {
    [Hi(t.srcPort), Lo(t.srcPort), Hi(t.dstPort), Lo(t.dstPort)] + Quad(t.seqNo) + Quad(t.ackNo)
    + [(5 + |t.options| / 4) * 16 + t.reserved, t.flags, Hi(t.window), Lo(t.window), Hi(t.sum), Lo(t.sum),
       Hi(t.urgent), Lo(t.urgent)]
    + t.options + payload
  }

  datatype UdpHdr = UdpHdr(srcPort: u16, dstPort: u16, length: u16, sum: u16)

  function UdpBytes(u: UdpHdr): (s: seq<byte>)
    ensures |s| == 8
  {
    [Hi(u.srcPort), Lo(u.srcPort), Hi(u.dstPort), Lo(u.dstPort), Hi(u.length), Lo(u.length), Hi(u.sum), Lo(u.sum)]
  }

  // ----- the IPv4 header -----

  lemma HiLo(v: u16)
    ensures (Hi(v) as int) * 0x100 + Lo(v) == v
  {
  }

  lemma IpFieldsOf(h: IpHdr, body: seq<byte>)
    requires Words(h.options)
    ensures var s := IpBytes(h) + body;
            && s[0] / 16 == 4 && s[0] % 16 * 4 == 20 + |h.options| && ReadU16(s, 2) == h.total && s[9] == h.proto
            && s[12..16] == h.src && s[16..20] == h.dst && s[20 + |h.options|..] == body
  {
    var k := |h.options| / 4;
    assert |h.options| == 4 * k && k <= 10;
    HiLo(h.total);
  }

  /** The header of any packet that has one. */
  function HdrOf(s: seq<byte>): (h: IpHdr)
    requires |s| >= 20 && s[0] / 16 == 4 && 20 <= s[0] % 16 * 4 <= |s|
    ensures Words(h.options) && 20 + |h.options| == s[0] % 16 * 4
  {
    IpHdr(s[1], ReadU16(s, 2), ReadU16(s, 4), ReadU16(s, 6), s[8], s[9], ReadU16(s, 10), s[12..16], s[16..20],
          s[20..s[0] % 16 * 4])
  }

  lemma ReadHiLo(s: seq<byte>, i: nat)
    requires i + 2 <= |s|
    ensures Hi(ReadU16(s, i)) == s[i] && Lo(ReadU16(s, i)) == s[i + 1]
  {
  }

  lemma HasHdr(s: seq<byte>)
    requires |s| >= 20 && s[0] / 16 == 4 && 20 <= s[0] % 16 * 4 <= |s|
    ensures s == IpBytes(HdrOf(s)) + s[s[0] % 16 * 4..]
  {
    var h := HdrOf(s);
    ReadHiLo(s, 2);
    ReadHiLo(s, 4);
    ReadHiLo(s, 6);
    ReadHiLo(s, 10);
    assert 0x45 + |h.options| / 4 == s[0];
    assert IpBytes(h)[..12] == s[..12];
    assert IpBytes(h)[12..20] == s[12..20];
  }

  // ----- TCP -----

  lemma QuadRead(v: u32)
    ensures ReadU32(Quad(v), 0) == v
  {
    U32RoundTrip(v, Quad(v));
  }

  lemma TcpFieldsOf(t: TcpHdr, payload: seq<byte>)
    requires Words(t.options) && t.reserved < 16
    ensures var s := TcpBytes(t, payload);
            && ReadU16(s, 0) == t.srcPort && ReadU16(s, 2) == t.dstPort && ReadU32(s, 4) == t.seqNo && s[13] == t.flags
            && s[12] / 16 * 4 == 20 + |t.options| && s[20 + |t.options|..] == payload
  {
    var s := TcpBytes(t, payload);
    HiLo(t.srcPort);
    HiLo(t.dstPort);
    QuadRead(t.seqNo);
    assert s[4..8] == Quad(t.seqNo);
    assert ReadU32(s, 4) == ReadU32(s[4..8], 0);
  }

  function TcpHdrOf(s: seq<byte>): (t: TcpHdr)
    requires |s| >= 20 && 20 <= s[12] / 16 * 4 <= |s|
    ensures Words(t.options) && t.reserved < 16 && 20 + |t.options| == s[12] / 16 * 4
  {
    TcpHdr(ReadU16(s, 0), ReadU16(s, 2), ReadU32(s, 4), ReadU32(s, 8), s[12] % 16, s[13], ReadU16(s, 14),
           ReadU16(s, 16), ReadU16(s, 18), s[20..s[12] / 16 * 4])
  }

  lemma ReadQuad(s: seq<byte>, i: nat)
    requires i + 4 <= |s|
    ensures Quad(ReadU32(s, i)) == s[i..i + 4]
  {
    U32RoundTrip(0, s[i..i + 4]);
    assert ReadU32(s, i) == ReadU32(s[i..i + 4], 0);
  }

  lemma OffsetByte(b: byte, optionsLen: nat)
    requires 20 + optionsLen == b / 16 * 4
    ensures (5 + optionsLen / 4) * 16 + b % 16 == b
  {
  }

  /** The twelve bytes up to the data offset, and the eight from there on. */
  lemma TcpParts(t: TcpHdr, payload: seq<byte>)
    requires Words(t.options) && t.reserved < 16
    ensures TcpBytes(t, payload)
         == ([Hi(t.srcPort), Lo(t.srcPort), Hi(t.dstPort), Lo(t.dstPort)] + Quad(t.seqNo) + Quad(t.ackNo))
            + ([(5 + |t.options| / 4) * 16 + t.reserved, t.flags, Hi(t.window), Lo(t.window), Hi(t.sum), Lo(t.sum),
                Hi(t.urgent), Lo(t.urgent)] + (t.options + payload))
  {
  }

  lemma HasTcpHdr(s: seq<byte>)
    requires |s| >= 20 && 20 <= s[12] / 16 * 4 <= |s|
    ensures s == TcpBytes(TcpHdrOf(s), s[s[12] / 16 * 4..])
  {
    var t := TcpHdrOf(s);
    TcpParts(t, s[s[12] / 16 * 4..]);
    OffsetByte(s[12], |t.options|);
    TcpFront(s);
    TcpBack(s);
    assert t.options + s[s[12] / 16 * 4..] == s[20..];
    assert s == s[..12] + (s[12..20] + s[20..]);
  }

  lemma TcpFront(s: seq<byte>)
    requires |s| >= 12
    ensures [Hi(ReadU16(s, 0)), Lo(ReadU16(s, 0)), Hi(ReadU16(s, 2)), Lo(ReadU16(s, 2))]
            + Quad(ReadU32(s, 4)) + Quad(ReadU32(s, 8)) == s[..12]
  {
    ReadHiLo(s, 0);
    ReadHiLo(s, 2);
    ReadQuad(s, 4);
    ReadQuad(s, 8);
    assert s[..12] == s[..4] + s[4..8] + s[8..12];
  }

  lemma TcpBack(s: seq<byte>)
    requires |s| >= 20
    ensures [s[12], s[13], Hi(ReadU16(s, 14)), Lo(ReadU16(s, 14)), Hi(ReadU16(s, 16)), Lo(ReadU16(s, 16)),
             Hi(ReadU16(s, 18)), Lo(ReadU16(s, 18))] == s[12..20]
  {
    ReadHiLo(s, 14);
    ReadHiLo(s, 16);
    ReadHiLo(s, 18);
  }

  /** ip is an IPv4 packet with a TCP segment, whatever the options and whatever follows it. */
  predicate TcpLayout(ip: seq<byte>, h: IpHdr, t: TcpHdr, payload: seq<byte>, tail: seq<byte>) {
    && Words(h.options) && Words(t.options) && t.reserved < 16 && h.proto == 6
    && h.total == 20 + |h.options| + 20 + |t.options| + |payload|
    && ip == IpBytes(h) + (TcpBytes(t, payload) + tail)
  }

  lemma LayoutParses(ip: seq<byte>, h: IpHdr, t: TcpHdr, payload: seq<byte>, tail: seq<byte>)
    requires TcpLayout(ip, h, t, payload, tail)
    ensures ParseTcp(ip) == Some(TcpPacket(h.src, t.srcPort, h.dst, t.dstPort, t.seqNo, t.flags, payload))
  {
    IpFieldsOf(h, TcpBytes(t, payload) + tail);
    TcpFieldsOf(t, payload);
    var hdr := 20 + |h.options|;
    assert ip[hdr..h.total] == TcpBytes(t, payload) by {
      assert ip[hdr..] == TcpBytes(t, payload) + tail;
      assert ip[hdr..h.total] == ip[hdr..][..h.total - hdr];
    }
  }

  lemma ParsedHasLayout(ip: seq<byte>) returns (h: IpHdr, t: TcpHdr, payload: seq<byte>, tail: seq<byte>)
    requires ParseTcp(ip).Some?
    ensures TcpLayout(ip, h, t, payload, tail)
    ensures ParseTcp(ip).value == TcpPacket(h.src, t.srcPort, h.dst, t.dstPort, t.seqNo, t.flags, payload)
  {
    var hdr := ip[0] % 16 * 4;
    HasHdr(ip);
    h := HdrOf(ip);
    var tcp := ip[hdr..h.total];
    HasTcpHdr(tcp);
    t := TcpHdrOf(tcp);
    payload := tcp[tcp[12] / 16 * 4..];
    tail := ip[h.total..];
    assert ip[hdr..] == tcp + tail;
  }

  /** The shim's parser accepts exactly the packets laid out so, and reads exactly their fields. */
  lemma ParseTcpExactly(ip: seq<byte>, p: TcpPacket)
    ensures ParseTcp(ip) == Some(p) <==>
            exists h, t, tail :: TcpLayout(ip, h, t, p.payload, tail)
                                 && p == TcpPacket(h.src, t.srcPort, h.dst, t.dstPort, t.seqNo, t.flags, p.payload)
  {
    if ParseTcp(ip) == Some(p) {
      var h, t, payload, tail := ParsedHasLayout(ip);
    }
    forall h, t, tail | TcpLayout(ip, h, t, p.payload, tail)
      ensures ParseTcp(ip) == Some(TcpPacket(h.src, t.srcPort, h.dst, t.dstPort, t.seqNo, t.flags, p.payload))
    {
      LayoutParses(ip, h, t, p.payload, tail);
    }
  }

  // ----- UDP -----

  /** ip is an IPv4 packet with a UDP header, its datagram and perhaps padding; then whatever follows. */
  predicate UdpLayout(ip: seq<byte>, h: IpHdr, u: UdpHdr, datagram: seq<byte>, pad: seq<byte>, tail: seq<byte>) {
    && Words(h.options) && h.proto == 17 && u.length == 8 + |datagram|
    && h.total == 20 + |h.options| + 8 + |datagram| + |pad|
    && ip == IpBytes(h) + (UdpBytes(u) + datagram + pad + tail)
  }

  /** How a view of ip reads back. */
  predicate Views(ip: seq<byte>, v: View, h: IpHdr, u: UdpHdr, datagram: seq<byte>) {
    && |datagram| <= 0xFFFF
    && v == View(h.src, h.dst, u.srcPort, u.dstPort, h.total, u.length, 28 + |h.options|, |datagram|)
    && v.off + v.len <= |ip| && ip[v.off..v.off + v.len] == datagram
  }

  lemma UdpFieldsOf(u: UdpHdr, rest: seq<byte>)
    ensures var s := UdpBytes(u) + rest;
            && ReadU16(s, 0) == u.srcPort && ReadU16(s, 2) == u.dstPort && ReadU16(s, 4) == u.length && s[8..] == rest
  {
    HiLo(u.srcPort);
    HiLo(u.dstPort);
    HiLo(u.length);
  }

  lemma ReadBehind(s: seq<byte>, k: nat, i: nat)
    requires k + i + 2 <= |s|
    ensures ReadU16(s, k + i) == ReadU16(s[k..], i)
  {
  }

  lemma UdpLayoutParses(ip: seq<byte>, h: IpHdr, u: UdpHdr, datagram: seq<byte>, pad: seq<byte>, tail: seq<byte>)
    requires UdpLayout(ip, h, u, datagram, pad, tail)
    ensures ParseUdp(ip).Some? && Views(ip, ParseUdp(ip).value, h, u, datagram)
  {
    var hdr := 20 + |h.options|;
    var rest := datagram + pad + tail;
    var body := UdpBytes(u) + datagram + pad + tail;
    assert body == UdpBytes(u) + rest;
    IpFieldsOf(h, body);
    UdpFieldsOf(u, rest);
    ReadBehind(ip, hdr, 0);
    ReadBehind(ip, hdr, 2);
    ReadBehind(ip, hdr, 4);
    assert ip[hdr + 8..] == ip[hdr..][8..];
    assert ip[hdr + 8..hdr + 8 + |datagram|] == rest[..|datagram|];
  }

  function UdpHdrOf(s: seq<byte>): UdpHdr
    requires |s| >= 8
  {
    UdpHdr(ReadU16(s, 0), ReadU16(s, 2), ReadU16(s, 4), ReadU16(s, 6))
  }

  lemma HasUdpHdr(s: seq<byte>)
    requires |s| >= 8
    ensures s == UdpBytes(UdpHdrOf(s)) + s[8..]
  {
    ReadHiLo(s, 0);
    ReadHiLo(s, 2);
    ReadHiLo(s, 4);
    ReadHiLo(s, 6);
  }

  lemma UdpParsedHasLayout(ip: seq<byte>)
    returns (h: IpHdr, u: UdpHdr, datagram: seq<byte>, pad: seq<byte>, tail: seq<byte>)
    requires ParseUdp(ip).Some?
    ensures UdpLayout(ip, h, u, datagram, pad, tail) && Views(ip, ParseUdp(ip).value, h, u, datagram)
  {
    var hdr := ip[0] % 16 * 4;
    HasHdr(ip);
    h := HdrOf(ip);
    var body := ip[hdr..];
    HasUdpHdr(body);
    u := UdpHdrOf(body);
    ReadBehind(ip, hdr, 0);
    ReadBehind(ip, hdr, 2);
    ReadBehind(ip, hdr, 4);
    datagram, pad, tail := body[8..u.length], body[u.length..h.total - hdr], body[h.total - hdr..];
    Cut(UdpBytes(u), body, 8, u.length, h.total - hdr);
    assert ip[hdr + 8..hdr + u.length] == datagram;
  }

  lemma Cut(head: seq<byte>, body: seq<byte>, i: nat, j: nat, k: nat)
    requires i <= j <= k <= |body| && body == head + body[i..]
    ensures body == head + body[i..j] + body[j..k] + body[k..]
  {
    assert body[i..] == body[i..j] + body[j..k] + body[k..];
  }

  /** ipv4_udp_parse accepts exactly the packets laid out so, and reads exactly their fields and datagram. */
  lemma ParseUdpExactly(ip: seq<byte>, v: View)
    ensures ParseUdp(ip) == Some(v) <==>
            exists h, u, datagram, pad, tail :: UdpLayout(ip, h, u, datagram, pad, tail) && Views(ip, v, h, u, datagram)
  {
    if ParseUdp(ip) == Some(v) {
      var h, u, datagram, pad, tail := UdpParsedHasLayout(ip);
    }
    forall h, u, datagram, pad, tail | UdpLayout(ip, h, u, datagram, pad, tail) && Views(ip, v, h, u, datagram)
      ensures ParseUdp(ip) == Some(v)
    {
      UdpLayoutParses(ip, h, u, datagram, pad, tail);
    }
  }

  // ----- what is written -----

  /** The headers of every segment written: no IP options, "don't fragment", TTL 64, protocol 6, addresses from
      the remote end to the local one, window 32768, and on a SYN the MSS option of 900. */
  function SegmentIp(c: Conn, len: nat, sum: u16): IpHdr
    requires 20 + len <= 0xFFFF
  {
    IpHdr(0, 20 + len, c.ipId, 0x4000, 64, 6, sum, c.dstIp, c.srcIp, [])
  }

  function SegmentTcp(c: Conn, flags: byte, sum: u16): (t: TcpHdr)
    ensures Words(t.options)
  {
    TcpHdr(c.dstPort, c.srcPort, c.ourSeqNext, c.peerSeqNext, 0, flags, 32768, sum, 0,
           if flags / 2 % 2 == 1 then [2, 4, 0x03, 0x84] else [])
  }

  predicate SegmentOf(framed: seq<byte>, c: Conn, flags: byte, payload: seq<byte>, ipSum: u16, tcpSum: u16) {
    var tcp := TcpBytes(SegmentTcp(c, flags, tcpSum), payload);
    |tcp| <= 0xFFFF - 20 && framed == [0, 0, 0, 2] + (IpBytes(SegmentIp(c, |tcp|, ipSum)) + tcp)
  }

  lemma SegmentTcpBytes(c: Conn, flags: byte, payload: seq<byte>, sum: u16)
    ensures TunSegment.TcpBytes(c, flags, payload, sum) == TcpBytes(SegmentTcp(c, flags, sum), payload)
  {
    var s := TunSegment.TcpBytes(c, flags, payload, sum);
    var t := TcpBytes(SegmentTcp(c, flags, sum), payload);
    assert s[..12] == t[..12];
    assert s[12..20] == t[12..20];
    assert s[20..] == t[20..];
    assert s == s[..12] + s[12..20] + s[20..] && t == t[..12] + t[12..20] + t[20..];
  }

  lemma SegmentIpBytes(c: Conn, len: nat, sum: u16)
    requires 20 + len <= 0xFFFF
    ensures IpHeader(20 + len, c.ipId, 0x4000, 64, 6, sum, c.dstIp, c.srcIp) == IpBytes(SegmentIp(c, len, sum))
  {
  }

  /** Every segment of a connection reads so, byte by byte, behind the tun device's address family. */
  lemma SegmentLayout(c: Conn, flags: byte, payload: seq<byte>)
    requires 44 + |payload| <= 0xFFFF
    ensures exists ipSum, tcpSum :: SegmentOf(TunSegment.Framed(c, flags, payload), c, flags, payload, ipSum, tcpSum)
  {
    var len := TcpHeaderLen(flags) + |payload|;
    var ipSum := InternetChecksum.Checksum(IpHeader(20 + len, c.ipId, 0x4000, 64, 6, 0, c.dstIp, c.srcIp));
    var tcpSum := TcpChecksum(c.dstIp, c.srcIp, TunSegment.TcpBytes(c, flags, payload, 0));
    FramedIsSegment(c, flags, payload, ipSum, tcpSum);
  }

  lemma FramedIsSegment(c: Conn, flags: byte, payload: seq<byte>, ipSum: u16, tcpSum: u16)
    requires 44 + |payload| <= 0xFFFF
    requires var len := TcpHeaderLen(flags) + |payload|;
             && ipSum == InternetChecksum.Checksum(IpHeader(20 + len, c.ipId, 0x4000, 64, 6, 0, c.dstIp, c.srcIp))
             && tcpSum == TcpChecksum(c.dstIp, c.srcIp, TunSegment.TcpBytes(c, flags, payload, 0))
    ensures SegmentOf(TunSegment.Framed(c, flags, payload), c, flags, payload, ipSum, tcpSum)
  {
    var len := TcpHeaderLen(flags) + |payload|;
    SegmentTcpBytes(c, flags, payload, tcpSum);
    SegmentIpBytes(c, len, ipSum);
    PacketParts(c, flags, payload);
    assert |TcpBytes(SegmentTcp(c, flags, tcpSum), payload)| == len;
  }

  lemma PacketParts(c: Conn, flags: byte, payload: seq<byte>)
    requires 44 + |payload| <= 0xFFFF
    ensures var len := TcpHeaderLen(flags) + |payload|;
            var ipSum := InternetChecksum.Checksum(IpHeader(20 + len, c.ipId, 0x4000, 64, 6, 0, c.dstIp, c.srcIp));
            var tcpSum := TcpChecksum(c.dstIp, c.srcIp, TunSegment.TcpBytes(c, flags, payload, 0));
            TunSegment.Framed(c, flags, payload)
            == [0, 0, 0, 2] + (IpHeader(20 + len, c.ipId, 0x4000, 64, 6, ipSum, c.dstIp, c.srcIp)
                               + TunSegment.TcpBytes(c, flags, payload, tcpSum))
  {
    var len := TcpHeaderLen(flags) + |payload|;
    Checked(20 + len, c.ipId, c.dstIp, c.srcIp);
    assert Low16(IPV4_HEADER_MIN + TcpHeaderLen(flags) + |payload|) == 20 + len;
  }

  lemma Checked(total: u16, id: u16, src: Addr, dst: Addr)
    ensures IpHeaderChecked(total, id, 0x4000, 64, IPPROTO_TCP, src, dst)
         == IpHeader(total, id, 0x4000, 64, 6,
                     InternetChecksum.Checksum(IpHeader(total, id, 0x4000, 64, 6, 0, src, dst)), src, dst)
  {
  }

  predicate ReplyOf(packet: seq<byte>, src: Addr, srcPort: u16, dst: Addr, dstPort: u16, id: u16, ttl: byte,
                    datagram: seq<byte>, ipSum: u16, udpSum: u16) {
    && |datagram| <= MAX_DATAGRAM
    && packet == IpBytes(IpHdr(0, 28 + |datagram|, id, 0, ttl, 17, ipSum, src, dst, []))
                 + (UdpBytes(UdpHdr(srcPort, dstPort, 8 + |datagram|, udpSum)) + datagram)
  }

  /** And so does every UDP packet built. */
  lemma UdpPacketLayout(src: Addr, srcPort: u16, dst: Addr, dstPort: u16, id: u16, ttl: byte, datagram: seq<byte>)
    requires |datagram| <= MAX_DATAGRAM
    ensures exists ipSum, udpSum ::
              ReplyOf(Ipv4.UdpPacket(src, srcPort, dst, dstPort, id, ttl, datagram),
                      src, srcPort, dst, dstPort, id, ttl, datagram, ipSum, udpSum)
  {
    var ipSum := InternetChecksum.Checksum(IpHeader(28 + |datagram|, id, 0, ttl, 17, 0, src, dst));
    var udpSum := UdpChecksum(src, srcPort, dst, dstPort, datagram);
    var p := Ipv4.UdpPacket(src, srcPort, dst, dstPort, id, ttl, datagram);
    var ip := IpHeader(28 + |datagram|, id, 0, ttl, 17, ipSum, src, dst);
    assert ip == IpBytes(IpHdr(0, 28 + |datagram|, id, 0, ttl, 17, ipSum, src, dst, []));
    assert p[20..] == UdpBytes(UdpHdr(srcPort, dstPort, 8 + |datagram|, udpSum)) + datagram;
    assert p == ip + p[20..];
    assert ReplyOf(p, src, srcPort, dst, dstPort, id, ttl, datagram, ipSum, udpSum);
  }
}
