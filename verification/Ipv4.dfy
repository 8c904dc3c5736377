/** panctl/ipv4.c: IPv4 and UDP headers, and the header layout tun_tcp.c shares. */
module Ipv4 {
  import opened Bytes
  import opened InternetChecksum
  import Frame

  const IPV4_HEADER_MIN := 20
  const UDP_HEADER_LEN := 8
  const IPPROTO_TCP: byte := 6
  const IPPROTO_UDP: byte := 17

  /** A four-byte address. */
  type Addr = a: seq<byte> | |a| == 4 witness [0, 0, 0, 0]

  // ----- layout -----

  /** A header without options, with checksum field c. */
  function IpHeader(total: u16, id: u16, frag: u16, ttl: byte, proto: byte, c: u16, src: Addr, dst: Addr)
    : (s: seq<byte>)
    ensures |s| == IPV4_HEADER_MIN
  {
    [0x45, 0] + U16Be(total) + U16Be(id) + U16Be(frag) + [ttl, proto] + U16Be(c) + src + dst
  }

  function IpHeaderChecked(total: u16, id: u16, frag: u16, ttl: byte, proto: byte, src: Addr, dst: Addr): (s: seq<byte>)
    ensures |s| == IPV4_HEADER_MIN
  {
    IpHeader(total, id, frag, ttl, proto, Checksum(IpHeader(total, id, frag, ttl, proto, 0, src, dst)), src, dst)
  }

  /** The pseudo-header of RFC 768 and RFC 9293. */
  function Pseudo(src: Addr, dst: Addr, proto: byte, len: u16): (s: seq<byte>)
    ensures |s| == 12
  {
    src + dst + [0, proto] + U16Be(len)
  }

  function UdpSegment(srcPort: u16, dstPort: u16, c: u16, datagram: seq<byte>): (s: seq<byte>)
    requires UDP_HEADER_LEN + |datagram| <= 0xFFFF
    ensures |s| == UDP_HEADER_LEN + |datagram|
  {
    U16Be(srcPort) + U16Be(dstPort) + U16Be(UDP_HEADER_LEN + |datagram|) + U16Be(c) + datagram
  }

  /** A computed 0 is sent as 0xFFFF. */
  function UdpChecksum(src: Addr, srcPort: u16, dst: Addr, dstPort: u16, datagram: seq<byte>): u16
    requires UDP_HEADER_LEN + |datagram| <= 0xFFFF
  {
    var seg := UdpSegment(srcPort, dstPort, 0, datagram);
    var c := Checksum(Pseudo(src, dst, IPPROTO_UDP, |seg|) + seg);
    if c == 0 then 0xFFFF else c
  }

  /** The longest datagram ipv4_udp_build takes; its 0xFFE0 test is the tighter one. */
  const MAX_DATAGRAM := 65496

  function UdpPacket(src: Addr, srcPort: u16, dst: Addr, dstPort: u16, id: u16, ttl: byte, datagram: seq<byte>)
    : (s: seq<byte>)
    requires |datagram| <= MAX_DATAGRAM
    ensures |s| == IPV4_HEADER_MIN + UDP_HEADER_LEN + |datagram|
  {
    IpHeaderChecked(IPV4_HEADER_MIN + UDP_HEADER_LEN + |datagram|, id, 0, ttl, IPPROTO_UDP, src, dst)
    + UdpSegment(srcPort, dstPort, UdpChecksum(src, srcPort, dst, dstPort, datagram), datagram)
  }

  // ----- checksums of what is built -----

  lemma IpHeaderValid(total: u16, id: u16, frag: u16, ttl: byte, proto: byte, src: Addr, dst: Addr)
    ensures Checksum(IpHeaderChecked(total, id, frag, ttl, proto, src, dst)) == 0
  {
    var zeroed := IpHeader(total, id, frag, ttl, proto, 0, src, dst);
    var c := Checksum(zeroed);
    SelfValidates(zeroed, 10, c);
    assert Overwrite(zeroed, 10, U16Be(c)) == IpHeader(total, id, frag, ttl, proto, c, src, dst);
  }

  lemma IpHeaderFields(total: u16, id: u16, frag: u16, ttl: byte, proto: byte, src: Addr, dst: Addr, rest: seq<byte>)
    ensures var s := IpHeaderChecked(total, id, frag, ttl, proto, src, dst) + rest;
            && s[0] == 0x45 && ReadU16(s, 2) == total && s[9] == proto
            && s[12..16] == src && s[16..20] == dst && s[IPV4_HEADER_MIN..] == rest
  {
    var h := IpHeaderChecked(total, id, frag, ttl, proto, src, dst);
    assert h[2..4] == U16Be(total) && h[12..16] == src && h[16..20] == dst;
    U16RoundTrip(total, h[2..4]);
    var s := h + rest;
    assert s[12..16] == h[12..16] && s[16..20] == h[16..20];
  }

  /** Whatever is sent, the receiver's checks of both checksums come out as 0. */
  lemma UdpPacketValid(src: Addr, srcPort: u16, dst: Addr, dstPort: u16, id: u16, ttl: byte, datagram: seq<byte>)
    requires |datagram| <= MAX_DATAGRAM
    ensures var p := UdpPacket(src, srcPort, dst, dstPort, id, ttl, datagram);
            && Checksum(p[..IPV4_HEADER_MIN]) == 0
            && Checksum(Pseudo(src, dst, IPPROTO_UDP, UDP_HEADER_LEN + |datagram|) + p[IPV4_HEADER_MIN..]) == 0
            && p[IPV4_HEADER_MIN + 6..][..2] != [0, 0]
  {
    var p := UdpPacket(src, srcPort, dst, dstPort, id, ttl, datagram);
    var total := IPV4_HEADER_MIN + UDP_HEADER_LEN + |datagram|;
    assert p[..IPV4_HEADER_MIN] == IpHeaderChecked(total, id, 0, ttl, IPPROTO_UDP, src, dst);
    IpHeaderValid(total, id, 0, ttl, IPPROTO_UDP, src, dst);
    UdpSegmentValid(src, srcPort, dst, dstPort, datagram);
    var c := UdpChecksum(src, srcPort, dst, dstPort, datagram);
    assert p[IPV4_HEADER_MIN..] == UdpSegment(srcPort, dstPort, c, datagram);
    assert p[IPV4_HEADER_MIN + 6..][..2] == U16Be(c);
    U16RoundTrip(c, U16Be(c));
  }

  lemma UdpSegmentValid(src: Addr, srcPort: u16, dst: Addr, dstPort: u16, datagram: seq<byte>)
    requires |datagram| <= MAX_DATAGRAM
    ensures var seg := UdpSegment(srcPort, dstPort, UdpChecksum(src, srcPort, dst, dstPort, datagram), datagram);
            Checksum(Pseudo(src, dst, IPPROTO_UDP, |seg|) + seg) == 0
  {
    var pseudo := Pseudo(src, dst, IPPROTO_UDP, UDP_HEADER_LEN + |datagram|);
    var c := UdpChecksum(src, srcPort, dst, dstPort, datagram);
    var zeroed := pseudo + UdpSegment(srcPort, dstPort, 0, datagram);
    SelfValidates(zeroed, 18, c);
    assert Overwrite(zeroed, 18, U16Be(c)) == pseudo + UdpSegment(srcPort, dstPort, c, datagram);
  }

  // ----- parsing -----

  /** struct ipv4_udp_view, the datagram pointer being an offset into the parsed buffer. */
  datatype View = View(src: Addr, dst: Addr, srcPort: u16, dstPort: u16, totalLen: u16, udpLen: u16,
                       off: nat, len: u16)

  /** ipv4_udp_parse */
  function ParseUdp(s: seq<byte>): (r: Frame.Option<View>)
    ensures r.Some? ==> var v := r.value;
            && v.off + v.len <= v.totalLen <= |s| && v.off >= IPV4_HEADER_MIN + UDP_HEADER_LEN
            && v.udpLen == UDP_HEADER_LEN + v.len
  {
    if |s| < IPV4_HEADER_MIN then Frame.None
    else if s[0] / 16 != 4 then Frame.None
    else
      var ihl := s[0] % 16;
      if ihl < 5 then Frame.None
      else
        var hdr := ihl * 4;
        if |s| < hdr then Frame.None
        else
          var totalLen := ReadU16(s, 2);
          if totalLen < hdr || totalLen > |s| then Frame.None
          else if s[9] != IPPROTO_UDP then Frame.None
          else if totalLen < hdr + UDP_HEADER_LEN then Frame.None
          else
            var udpLen := ReadU16(s, hdr + 4);
            if udpLen < UDP_HEADER_LEN then Frame.None
            else if hdr + udpLen > totalLen then Frame.None
            else Frame.Some(View(s[12..16], s[16..20], ReadU16(s, hdr), ReadU16(s, hdr + 2), totalLen, udpLen,
                                 hdr + UDP_HEADER_LEN, udpLen - UDP_HEADER_LEN))
  }

  lemma UdpFields(srcPort: u16, dstPort: u16, c: u16, datagram: seq<byte>, tail: seq<byte>)
    requires UDP_HEADER_LEN + |datagram| <= 0xFFFF
    ensures var t := UdpSegment(srcPort, dstPort, c, datagram) + tail;
            && ReadU16(t, 0) == srcPort && ReadU16(t, 2) == dstPort && ReadU16(t, 4) == UDP_HEADER_LEN + |datagram|
            && t[UDP_HEADER_LEN..UDP_HEADER_LEN + |datagram|] == datagram
  {
    U16RoundTrip(srcPort, U16Be(0));
    U16RoundTrip(dstPort, U16Be(0));
    U16RoundTrip(UDP_HEADER_LEN + |datagram|, U16Be(0));
  }

  /** Parsing what was built, whatever trails it, gives back every field and the datagram. */
  lemma UdpRoundTrip(src: Addr, srcPort: u16, dst: Addr, dstPort: u16, id: u16, ttl: byte,
                    datagram: seq<byte>, tail: seq<byte>)
    requires |datagram| <= MAX_DATAGRAM
    ensures var p := UdpPacket(src, srcPort, dst, dstPort, id, ttl, datagram);
            var n := |datagram|;
            && ParseUdp(p + tail) == Frame.Some(View(src, dst, srcPort, dstPort, |p|, UDP_HEADER_LEN + n, 28, n))
            && (p + tail)[28..28 + n] == datagram
  {
    var total := IPV4_HEADER_MIN + UDP_HEADER_LEN + |datagram|;
    var c := UdpChecksum(src, srcPort, dst, dstPort, datagram);
    var t := UdpSegment(srcPort, dstPort, c, datagram) + tail;
    var s := UdpPacket(src, srcPort, dst, dstPort, id, ttl, datagram) + tail;
    assert s == IpHeaderChecked(total, id, 0, ttl, IPPROTO_UDP, src, dst) + t;
    IpHeaderFields(total, id, 0, ttl, IPPROTO_UDP, src, dst, t);
    UdpFields(srcPort, dstPort, c, datagram, tail);
    assert ReadU16(s, 20) == ReadU16(t, 0) && ReadU16(s, 22) == ReadU16(t, 2) && ReadU16(s, 24) == ReadU16(t, 4);
    assert s[28..28 + |datagram|] == t[8..8 + |datagram|];
  }

  // ----- building in place -----

  /** The IPv4 header both builders write, at offset off. */
  method WriteIpHeader(buf: array<byte>, off: nat, total: u16, id: u16, frag: u16, ttl: byte, proto: byte,
                       src: Addr, dst: Addr)
    requires off + IPV4_HEADER_MIN <= buf.Length
    modifies buf
    ensures buf[..] == Overwrite(old(buf[..]), off, IpHeaderChecked(total, id, frag, ttl, proto, src, dst))
  {
    ghost var o := buf[..];
    CopyInto(buf, off, [0x45, 0]);
    WriteU16(buf, off + 2, total);
    ghost var w := [0x45, 0] + U16Be(total);
    OverwriteAppend(o, off, [0x45, 0], U16Be(total));
    WriteU16(buf, off + 4, id);
    OverwriteAppend(o, off, w, U16Be(id));
    w := w + U16Be(id);
    WriteU16(buf, off + 6, frag);
    OverwriteAppend(o, off, w, U16Be(frag));
    w := w + U16Be(frag);
    CopyInto(buf, off + 8, [ttl, proto]);
    OverwriteAppend(o, off, w, [ttl, proto]);
    w := w + [ttl, proto];
    WriteU16(buf, off + 10, 0);
    OverwriteAppend(o, off, w, U16Be(0));
    w := w + U16Be(0);
    CopyInto(buf, off + 12, src);
    OverwriteAppend(o, off, w, src);
    w := w + src;
    CopyInto(buf, off + 16, dst);
    OverwriteAppend(o, off, w, dst);
    w := w + dst;
    assert w == IpHeader(total, id, frag, ttl, proto, 0, src, dst);
    OverwriteSlice(o, off, w);
    var c := ComputeChecksum(buf[off..off + IPV4_HEADER_MIN]);
    WriteU16(buf, off + 10, c);
    OverwritePatch(o, off, w, 10, U16Be(c));
    assert Overwrite(w, 10, U16Be(c)) == IpHeader(total, id, frag, ttl, proto, c, src, dst);
  }

  /** The UDP header with a zeroed checksum, and the datagram, at offset off. */
  method WriteUdpSegment(buf: array<byte>, off: nat, srcPort: u16, dstPort: u16, datagram: seq<byte>)
    requires UDP_HEADER_LEN + |datagram| <= 0xFFFF && off + UDP_HEADER_LEN + |datagram| <= buf.Length
    modifies buf
    ensures buf[..] == Overwrite(old(buf[..]), off, UdpSegment(srcPort, dstPort, 0, datagram))
  {
    ghost var o := buf[..];
    var len := UDP_HEADER_LEN + |datagram|;
    WriteU16(buf, off, srcPort);
    WriteU16(buf, off + 2, dstPort);
    OverwriteAppend(o, off, U16Be(srcPort), U16Be(dstPort));
    ghost var w := U16Be(srcPort) + U16Be(dstPort);
    WriteU16(buf, off + 4, len);
    OverwriteAppend(o, off, w, U16Be(len));
    w := w + U16Be(len);
    WriteU16(buf, off + 6, 0);
    OverwriteAppend(o, off, w, U16Be(0));
    w := w + U16Be(0);
    CopyInto(buf, off + UDP_HEADER_LEN, datagram);
    OverwriteAppend(o, off, w, datagram);
  }

  /** The checksum of a transport segment behind its pseudo-header, computed in a scratch buffer. */
  method PseudoChecksum(src: Addr, dst: Addr, proto: byte, seg: seq<byte>) returns (c: u16)
    requires |seg| <= 0xFFFF
    ensures c == Checksum(Pseudo(src, dst, proto, |seg|) + seg)
  {
    var scratch := new byte[12 + |seg|];
    ghost var o := scratch[..];
    CopyInto(scratch, 0, src);
    CopyInto(scratch, 4, dst);
    OverwriteAppend(o, 0, src, dst);
    CopyInto(scratch, 8, [0, proto]);
    OverwriteAppend(o, 0, src + dst, [0, proto]);
    WriteU16(scratch, 10, |seg|);
    OverwriteAppend(o, 0, src + dst + [0, proto], U16Be(|seg|));
    CopyInto(scratch, 12, seg);
    OverwriteAppend(o, 0, Pseudo(src, dst, proto, |seg|), seg);
    OverwriteSlice(o, 0, Pseudo(src, dst, proto, |seg|) + seg);
    assert scratch[..] == scratch[0..12 + |seg|];
    c := ComputeChecksum(scratch[..]);
  }

  /** Replaces the zeroed checksum of the UDP segment at offset off, which is all that was written
      over o. */
  method FillUdpChecksum(buf: array<byte>, off: nat, src: Addr, srcPort: u16, dst: Addr, dstPort: u16,
                         datagram: seq<byte>, ghost o: seq<byte>)
    requires UDP_HEADER_LEN + |datagram| <= 0xFFFF && off + UDP_HEADER_LEN + |datagram| <= buf.Length == |o|
    requires buf[..] == Overwrite(o, off, UdpSegment(srcPort, dstPort, 0, datagram))
    modifies buf
    ensures buf[..] == Overwrite(o, off,
                         UdpSegment(srcPort, dstPort, UdpChecksum(src, srcPort, dst, dstPort, datagram), datagram))
  {
    ghost var seg := UdpSegment(srcPort, dstPort, 0, datagram);
    OverwriteSlice(o, off, seg);
    var sum := PseudoChecksum(src, dst, IPPROTO_UDP, buf[off..off + UDP_HEADER_LEN + |datagram|]);
    if sum == 0 {
      sum := 0xFFFF;
    }
    WriteU16(buf, off + 6, sum);
    OverwritePatch(o, off, seg, 6, U16Be(sum));
    assert Overwrite(seg, 6, U16Be(sum)) == UdpSegment(srcPort, dstPort, sum, datagram);
  }

  /** ipv4_udp_build into a buffer whose capacity is its length. It succeeds exactly when the packet
      fits and the datagram passes the 0xFFE0 test. */
  method BuildUdp(buf: array<byte>, src: Addr, srcPort: u16, dst: Addr, dstPort: u16, id: u16, ttl: byte,
                  datagram: seq<byte>)
    returns (n: int)
    modifies buf
    ensures n == if 28 + |datagram| <= buf.Length && |datagram| <= MAX_DATAGRAM then 28 + |datagram| else -1
    ensures n >= 0 ==> buf[..] == Overwrite(old(buf[..]), 0,
                         UdpPacket(src, srcPort, dst, dstPort, id, if ttl == 0 then 64 else ttl, datagram))
  {
    ghost var o := buf[..];
    var t := if ttl == 0 then 64 else ttl;
    var total := IPV4_HEADER_MIN + UDP_HEADER_LEN + |datagram|;
    if total > 0xFFFF || total > buf.Length {
      return -1;
    }
    WriteIpHeader(buf, 0, total, id, 0, t, IPPROTO_UDP, src, dst);
    ghost var o' := buf[..];
    WriteUdpSegment(buf, IPV4_HEADER_MIN, srcPort, dstPort, datagram);
    if UDP_HEADER_LEN + |datagram| > 0xFFE0 {
      return -1;
    }
    FillUdpChecksum(buf, IPV4_HEADER_MIN, src, srcPort, dst, dstPort, datagram, o');
    OverwriteAppend(o, 0, IpHeaderChecked(total, id, 0, t, IPPROTO_UDP, src, dst),
                    UdpSegment(srcPort, dstPort, UdpChecksum(src, srcPort, dst, dstPort, datagram), datagram));
    n := total;
  }
}
