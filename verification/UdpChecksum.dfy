/** Users of in_cksum: udp_write and udp_check (udpchsum/udpwrite.cpp, udpchsum/udpread.cpp) and send_v4 (ping/main.cpp). */
module UdpChecksum {
  import opened Bytes
  import opened InCksum

  const IPHDR := 20
  const UDPHDR := 8
  const UDPIPHDR := 28
  const IPVERSION := 4
  const IPPROTO_UDP := 17
  const TTL_OUT := 64
  const UI_SUM := 26
  const IP_SUM := 10

  /** Address and port of both ends, as kept in the sockaddr_in structures: network byte order. */
  datatype Ends = Ends(src: seq<byte>, dst: seq<byte>, sport: seq<byte>, dport: seq<byte>) {
    predicate Valid() {
      |src| == 4 && |dst| == 4 && |sport| == 2 && |dport| == 2
    }
  }

  function Htons(w: uint16): (b: seq<byte>)
    ensures |b| == 2
  {
    [w / 256, w % 256]
  }

  function Zeros(n: nat): (z: seq<byte>)
    ensures |z| == n && forall i :: 0 <= i < n ==> z[i] == 0
  {
    seq(n, _ => 0)
  }

  // ----- layout

  /** The UDP header field by field. */
  function UdpHeader(e: Ends, ulen: uint16, sum: seq<byte>): seq<byte> {
    e.sport + e.dport + Htons(ulen) + sum
  }

  /** The pseudo header of RFC 768, where the IP header will be: padding, protocol, length, addresses. */
  function PseudoHeader(e: Ends, ulen: uint16): seq<byte> {
    Zeros(9) + [IPPROTO_UDP] + Htons(ulen) + e.src + e.dst
  }

  function Summed(e: Ends, data: seq<byte>): seq<byte> {
    var ulen := (UDPHDR + |data|) % 0x1_0000;
    PseudoHeader(e, ulen) + (UdpHeader(e, ulen, [0, 0]) + data)
  }

  function Checksum(o: Order, zerosum: bool, e: Ends, data: seq<byte>): uint16 {
    var c := Cksum(o, Summed(e, data));
    if zerosum then 0 else if c == 0 then 0xffff else c
  }

  /** Version, header length, type of service, length, identification, fragment offset and time to live. */
  function IpFields(len: nat): seq<byte> {
    [16 * IPVERSION + IPHDR / 4, 0] + Htons(len % 0x1_0000) + Zeros(4) + [TTL_OUT]
  }

  /** The datagram handed to the raw socket, with UDP checksum bytes sum. The kernel fills in the IP checksum, whose field
      still holds the UDP length. */
  function Framed(e: Ends, data: seq<byte>, sum: seq<byte>): seq<byte> {
    var ulen := (UDPHDR + |data|) % 0x1_0000;
    IpFields(UDPIPHDR + |data|) + [IPPROTO_UDP] + Htons(ulen) + e.src + e.dst + (UdpHeader(e, ulen, sum) + data)
  }

  function Packet(o: Order, zerosum: bool, e: Ends, data: seq<byte>): seq<byte> {
    Framed(e, data, Store(o, Checksum(o, zerosum, e, data)))
  }

  // ----- udp_write

  method Copy(buf: array<byte>, at: nat, s: seq<byte>)
    requires at + |s| <= buf.Length
    modifies buf
    ensures forall i :: 0 <= i < buf.Length ==> buf[i] == if at <= i < at + |s| then s[i - at] else old(buf[i])
  {
    var i := 0;
    while i < |s|
      invariant 0 <= i <= |s|
      invariant forall j :: 0 <= j < buf.Length ==> buf[j] == if at <= j < at + i then s[j - at] else old(buf[j])
    {
      buf[at + i] := s[i];
      i := i + 1;
    }
  }

  /** A 16-bit word in the host's order. */
  method StoreAt(o: Order, buf: array<byte>, at: nat, w: uint16)
    requires at + 1 < buf.Length
    modifies buf
    ensures buf[..] == Put(o, old(buf[..]), at, w)
  {
    var m := Store(o, w);
    buf[at], buf[at + 1] := m[0], m[1];
  }

  lemma PutInFront(o: Order, s: seq<byte>, t: seq<byte>, k: nat, w: uint16)
    requires k + 1 < |s|
    ensures Put(o, s + t, k, w) == Put(o, s, k, w) + t
  {
  }

  method UdpWrite(o: Order, zerosum: bool, e: Ends, buf: array<byte>, userlen: nat)
    requires e.Valid() && UDPIPHDR + userlen <= buf.Length
    modifies buf
    ensures buf[..] == Packet(o, zerosum, e, old(buf[UDPIPHDR..UDPIPHDR + userlen])) + old(buf[UDPIPHDR + userlen..])
  {
    hide Summed, Checksum, Framed, Put, IpFields;
    ghost var data := buf[UDPIPHDR..UDPIPHDR + userlen];
    ghost var behind := buf[UDPIPHDR + userlen..];
    var len := UDPIPHDR + userlen;
    FillPseudoAndUdp(e, buf, userlen);
    FillSum(o, zerosum, e, data, behind, buf, len);
    ghost var w := Checksum(o, zerosum, e, data);
    FramedFromSummed(o, e, data, behind, w);
    FillIp(buf, len);
  }

  /** Fills in the checksum, if there is to be one. */
  method FillSum(o: Order, zerosum: bool, e: Ends, ghost data: seq<byte>, ghost behind: seq<byte>, buf: array<byte>, len: nat)
    requires e.Valid() && len == UDPIPHDR + |data| == |Summed(e, data)| && buf[..] == Summed(e, data) + behind
    modifies buf
    ensures buf[..] == Put(o, Summed(e, data), UI_SUM, Checksum(o, zerosum, e, data)) + behind
  {
    assert buf[0..0 + len] == Summed(e, data);
    if zerosum {
      assert Summed(e, data)[UI_SUM] == 0 && Summed(e, data)[UI_SUM + 1] == 0;
    } else {
      var sum := InCksum.InCksum(o, buf, 0, len);
      if sum == 0 {
        sum := 0xffff;
      }
      StoreAt(o, buf, UI_SUM, sum);
      PutInFront(o, Summed(e, data), behind, UI_SUM, sum);
    }
  }

  /** The summed buffer becomes the datagram by its first nine bytes. */
  lemma FramedFromSummed(o: Order, e: Ends, data: seq<byte>, behind: seq<byte>, w: uint16)
    requires e.Valid()
    ensures var len := UDPIPHDR + |data|;
            && |Summed(e, data)| == len
            && IpFields(len) + (Put(o, Summed(e, data), UI_SUM, w) + behind)[9..]
               == Framed(e, data, Store(o, w)) + behind
  {
    var p := Put(o, Summed(e, data), UI_SUM, w);
    assert Framed(e, data, Store(o, w)) == IpFields(|p|) + p[9..];
  }

  /** Clears the headers and fills in what the checksum covers. */
  method FillPseudoAndUdp(e: Ends, buf: array<byte>, userlen: nat)
    requires e.Valid() && UDPIPHDR + userlen <= buf.Length
    modifies buf
    ensures var data := old(buf[UDPIPHDR..UDPIPHDR + userlen]);
            |Summed(e, data)| == UDPIPHDR + userlen && buf[..] == Summed(e, data) + old(buf[UDPIPHDR + userlen..])
  {
    hide PseudoHeader, UdpHeader;
    var ulen := (UDPHDR + userlen) % 0x1_0000;
    Copy(buf, 0, Zeros(UDPIPHDR));
    FillPseudo(e, buf, ulen);
    FillUdp(e, buf, ulen);
    HeaderLengths(e, ulen);
  }

  lemma HeaderLengths(e: Ends, ulen: uint16)
    requires e.Valid()
    ensures |PseudoHeader(e, ulen)| == 20 && |UdpHeader(e, ulen, [0, 0])| == 8
  {
  }

  method FillPseudo(e: Ends, buf: array<byte>, ulen: uint16)
    requires e.Valid() && UDPIPHDR <= buf.Length && forall i :: 0 <= i < UDPIPHDR ==> buf[i] == 0
    modifies buf
    ensures |PseudoHeader(e, ulen)| == 20
    ensures forall i :: 0 <= i < buf.Length ==> buf[i] == if i < 20 then PseudoHeader(e, ulen)[i] else old(buf[i])
  {
    Copy(buf, 10, Htons(ulen));
    buf[9] := IPPROTO_UDP;
    Copy(buf, 12, e.src);
    Copy(buf, 16, e.dst);
  }

  method FillUdp(e: Ends, buf: array<byte>, ulen: uint16)
    requires e.Valid() && UDPIPHDR <= buf.Length && buf[26] == buf[27] == 0
    modifies buf
    ensures |UdpHeader(e, ulen, [0, 0])| == 8
    ensures forall i :: 0 <= i < buf.Length ==>
              buf[i] == if 20 <= i < 28 then UdpHeader(e, ulen, [0, 0])[i - 20] else old(buf[i])
  {
    Copy(buf, 20, e.sport);
    Copy(buf, 22, e.dport);
    Copy(buf, 24, Htons(ulen));
  }

  /** The IP fields in front of the protocol byte. */
  method FillIp(buf: array<byte>, len: nat)
    requires UDPIPHDR <= buf.Length
    modifies buf
    ensures buf[..] == IpFields(len) + old(buf[9..])
  {
    buf[0] := 16 * IPVERSION + IPHDR / 4;
    buf[1] := 0;
    Copy(buf, 2, Htons(len % 0x1_0000));
    Copy(buf, 4, Zeros(4));
    buf[8] := TTL_OUT;
  }

  // ----- what the receiver of a packet computes

  /** The buffer a receiver sums (RFC 768): the pseudo header rebuilt from the IP header, then the UDP datagram. */
  function ReceiverView(p: seq<byte>): seq<byte>
    requires |p| >= UDPIPHDR
  {
    Zeros(9) + [p[9]] + p[24..26] + p[12..20] + p[20..]
  }

  function SumField(p: seq<byte>): seq<byte>
    requires |p| >= UDPIPHDR
  {
    p[UI_SUM..UI_SUM + 2]
  }

  /** For every payload that fits a UDP datagram: the checksum field is never zero when checksums are on, and a receiver
      of either byte order sums the packet to 0; with checksums off the field says so. */
  lemma ReceiverAccepts(o: Order, o': Order, zerosum: bool, e: Ends, data: seq<byte>)
    requires e.Valid() && UDPHDR + |data| < 0x1_0000
    ensures var p := Packet(o, zerosum, e, data);
            && |p| == UDPIPHDR + |data| && p[UDPIPHDR..] == data
            && (zerosum <==> SumField(p) == [0, 0])
            && (!zerosum ==> Cksum(o', ReceiverView(p)) == 0)
  {
    var s, w := Summed(e, data), Checksum(o, zerosum, e, data);
    ViewOfFrame(e, data, Store(o, w));
    if !zerosum {
      StoredChecksumVerifies(o, s, UI_SUM);
      EitherOrderVerifies(o, o', Put(o, s, UI_SUM, w));
    }
  }

  lemma FramedLength(e: Ends, data: seq<byte>, sum: seq<byte>)
    requires e.Valid() && |sum| == 2
    ensures |IpFields(UDPIPHDR + |data|)| == 9 && |Framed(e, data, sum)| == UDPIPHDR + |data|
  {
  }

  lemma ViewOfFrame(e: Ends, data: seq<byte>, sum: seq<byte>)
    requires e.Valid() && |sum| == 2
    ensures var p := Framed(e, data, sum);
            && |p| == UDPIPHDR + |data| && p[UDPIPHDR..] == data && SumField(p) == sum
            && ReceiverView(p) == Summed(e, data)[UI_SUM := sum[0]][UI_SUM + 1 := sum[1]]
  {
    hide IpFields, Htons;
    FramedLength(e, data, sum);
    var p := Framed(e, data, sum);
    var ulen := (UDPHDR + |data|) % 0x1_0000;
    assert p[9] == IPPROTO_UDP && p[24..26] == Htons(ulen) && p[12..20] == e.src + e.dst;
    assert p[20..] == UdpHeader(e, ulen, sum) + data;
  }

  lemma EitherOrderVerifies(o: Order, o': Order, s: seq<byte>)
    requires |s| <= MAXLEN && Cksum(o, s) == 0
    ensures Cksum(o', s) == 0
  {
    ByteOrderIndependent(s);
    assert Store(LittleEndian, Cksum(LittleEndian, s)) == Store(BigEndian, Cksum(BigEndian, s));
  }

  /** Two bytes in network order. */
  function Short(p: seq<byte>, at: nat): int
    requires at + 2 <= |p|
  {
    var hi: int, lo: int := p[at], p[at + 1];
    0x100 * hi + lo
  }

  /** The packet byte by byte, for every sender, receiver and payload: the IP fields, the addresses and ports of source and
      destination each in their place, the lengths, the payload. (The kernel fills in the IP checksum at 10.) */
  lemma PacketLayout(o: Order, zerosum: bool, e: Ends, data: seq<byte>)
    requires e.Valid()
    ensures var p := Packet(o, zerosum, e, data);
            && |p| == 28 + |data|
            && p[0] == 0x45 && p[1] == 0
            && Short(p, 2) == (28 + |data|) % 0x1_0000
            && p[4..8] == [0, 0, 0, 0]
            && p[8] == 64 && p[9] == 17
            && p[12..16] == e.src && p[16..20] == e.dst
            && p[20..22] == e.sport && p[22..24] == e.dport
            && Short(p, 24) == (8 + |data|) % 0x1_0000
            && p[28..] == data
  {
    var sum := Store(o, Checksum(o, zerosum, e, data));
    var p := Framed(e, data, sum);
    var ulen := (UDPHDR + |data|) % 0x1_0000;
    var u := UdpHeader(e, ulen, sum);
    assert p == IpFields(UDPIPHDR + |data|) + ([IPPROTO_UDP] + Htons(ulen) + e.src + e.dst + u + data);
    assert p[20..28] == u;
    assert p[20..22] == u[0..2] && p[22..24] == u[2..4] && p[24..26] == u[4..6];
  }

  /** The checksum field: absent, or the complement of the number that the pseudo header of RFC 768, the UDP header with a
      zero in its place and the data make, modulo 65535; never 0. */
  lemma ChecksumField(zerosum: bool, e: Ends, data: seq<byte>)
    requires e.Valid() && 8 + |data| < 0x1_0000
    ensures var sum := Short(Packet(BigEndian, zerosum, e, data), 26);
            var ulen := Htons(8 + |data|);
            var covered := [0, 0, 0, 0, 0, 0, 0, 0, 0, 17] + ulen + e.src + e.dst
                           + (e.sport + e.dport + ulen + [0, 0] + data);
            if zerosum then sum == 0 else sum > 0 && (sum + Number(Padded(covered))) % 65535 == 0
    ensures Packet(LittleEndian, zerosum, e, data) == Packet(BigEndian, zerosum, e, data)
  {
    hide Number, Padded, Cksum, Summed, Checksum, Framed;
    SummedBytes(e, data);
    SumValue(zerosum, e, data);
    SameSumField(zerosum, e, data);
    SumFieldBytes(BigEndian, zerosum, e, data);
  }

  lemma SummedBytes(e: Ends, data: seq<byte>)
    requires e.Valid() && 8 + |data| < 0x1_0000
    ensures var ulen := Htons(8 + |data|);
            Summed(e, data) == [0, 0, 0, 0, 0, 0, 0, 0, 0, 17] + ulen + e.src + e.dst
                               + (e.sport + e.dport + ulen + [0, 0] + data)
    ensures |Summed(e, data)| <= MAXLEN
  {
    assert Zeros(9) + [17] == [0, 0, 0, 0, 0, 0, 0, 0, 0, 17];
  }

  lemma SumValue(zerosum: bool, e: Ends, data: seq<byte>)
    requires |Summed(e, data)| <= MAXLEN
    ensures var w: int := Checksum(BigEndian, zerosum, e, data);
            if zerosum then w == 0 else w > 0 && (w + Number(Padded(Summed(e, data)))) % 65535 == 0
  {
    hide Number, Padded, Cksum, Summed;
    ChecksumNegatesTheNumber(Summed(e, data));
  }

  lemma SameSumField(zerosum: bool, e: Ends, data: seq<byte>)
    requires e.Valid() && 8 + |data| < 0x1_0000
    ensures Store(LittleEndian, Checksum(LittleEndian, zerosum, e, data))
            == Store(BigEndian, Checksum(BigEndian, zerosum, e, data))
  {
    ByteOrderIndependent(Summed(e, data));
    var l, b := Cksum(LittleEndian, Summed(e, data)), Cksum(BigEndian, Summed(e, data));
    assert Store(LittleEndian, l)[0] == Store(BigEndian, b)[0] && Store(LittleEndian, l)[1] == Store(BigEndian, b)[1];
  }

  lemma SumFieldBytes(o: Order, zerosum: bool, e: Ends, data: seq<byte>)
    requires e.Valid()
    ensures var p, m := Packet(o, zerosum, e, data), Store(o, Checksum(o, zerosum, e, data));
            |p| >= UDPIPHDR && p[26] == m[0] && p[27] == m[1]
  {
    var m := Store(o, Checksum(o, zerosum, e, data));
    ViewOfFrame(e, data, m);
    assert SumField(Framed(e, data, m)) == m;
  }

  // ----- udp_check

  datatype Verdict = Udp | BadLength | BadVersion | BadHeaderLength | Truncated | BadChecksum | NotUdp

  function HeaderLength(b: byte): nat {
    4 * (b % 16)
  }

  function Check(o: Order, p: seq<byte>): Verdict {
    if |p| < IPHDR + UDPHDR then BadLength
    else if p[0] / 16 != IPVERSION then BadVersion
    else if HeaderLength(p[0]) < IPHDR then BadHeaderLength
    else if |p| < HeaderLength(p[0]) + UDPHDR then Truncated
    else if Cksum(o, p[..HeaderLength(p[0])]) != 0 then BadChecksum
    else if p[9] != IPPROTO_UDP then NotUdp
    else Udp
  }

  /** The checksum is computed into the packet's own checksum field; nothing else of the packet changes. */
  method UdpCheck(o: Order, ptr: array<byte>) returns (v: Verdict)
    modifies ptr
    ensures v == Check(o, old(ptr[..]))
    ensures v in {Udp, NotUdp} ==> ptr[..] == old(ptr[..])[IP_SUM := 0][IP_SUM + 1 := 0]
    ensures v == BadChecksum ==> ptr[..] == Put(o, old(ptr[..]), IP_SUM, Cksum(o, old(ptr[..HeaderLength(ptr[0])])))
    ensures v in {BadLength, BadVersion, BadHeaderLength, Truncated} ==> ptr[..] == old(ptr[..])
  {
    if ptr.Length < IPHDR + UDPHDR {
      return BadLength;
    }
    if ptr[0] / 16 != IPVERSION {
      return BadVersion;
    }
    var hlen := 4 * (ptr[0] % 16);
    if hlen < IPHDR {
      return BadHeaderLength;
    }
    if ptr.Length < hlen + UDPHDR {
      return Truncated;
    }
    assert ptr[0..0 + hlen] == ptr[..][..HeaderLength(ptr[0])];
    var sum := InCksum.InCksum(o, ptr, 0, hlen);
    var m := Store(o, sum);
    ptr[IP_SUM], ptr[IP_SUM + 1] := m[0], m[1];
    if sum != 0 {
      return BadChecksum;
    }
    if ptr[9] == IPPROTO_UDP {
      return Udp;
    } else {
      return NotUdp;
    }
  }

  /** Every verdict in terms of the bytes alone: version and header length in the first, protocol in the tenth, and a header
      that is, as a number, a positive multiple of 65535. */
  lemma VerdictsAreExact(o: Order, p: seq<byte>)
    ensures |p| < 28 <==> Check(o, p) == BadLength
    ensures |p| >= 28 ==>
              var version, words := p[0] / 16, p[0] % 16;
              && (version != 4 <==> Check(o, p) == BadVersion)
              && (version == 4 && words < 5 <==> Check(o, p) == BadHeaderLength)
              && (version == 4 && 5 <= words && |p| < 4 * words + 8 <==> Check(o, p) == Truncated)
              && (version == 4 && 5 <= words && 4 * words + 8 <= |p| ==>
                    var header := Number(p[..4 * words]);
                    && (header == 0 || header % 65535 != 0 <==> Check(o, p) == BadChecksum)
                    && (header > 0 && header % 65535 == 0 && p[9] != 17 <==> Check(o, p) == NotUdp)
                    && (header > 0 && header % 65535 == 0 && p[9] == 17 <==> Check(o, p) == Udp))
  {
    hide Cksum;
    if |p| >= 28 && p[0] / 16 == 4 && p[0] % 16 >= 5 && 4 * (p[0] % 16) + 8 <= |p| {
      HeaderVerifies(o, p[..HeaderLength(p[0])]);
    }
  }

  lemma HeaderVerifies(o: Order, h: seq<byte>)
    requires |h| % 2 == 0 && |h| <= MAXLEN
    ensures Cksum(o, h) == 0 <==> Number(h) > 0 && Number(h) % 65535 == 0
  {
    ChecksumNegatesTheNumber(h);
    var c: int := Cksum(BigEndian, h);
    var n := Number(h);
    assert c == 0 ==> n % 65535 == 0 && n > 0;
    if n % 65535 == 0 {
      assert c % 65535 == 0 by {
        assert c == (c + n) - 65535 * (n / 65535);
        Congruent(c, c + n, -(n / 65535));
      }
    }
  }

  /** Once the IP checksum is filled in by any host, the packets of udp_write pass udp_check on any other. */
  lemma WrittenPacketsPassTheCheck(o: Order, k: Order, o': Order, zerosum: bool, e: Ends, data: seq<byte>)
    requires e.Valid() && UDPHDR + |data| < 0x1_0000
    ensures var p := Packet(o, zerosum, e, data)[IP_SUM := 0][IP_SUM + 1 := 0];
            var header := p[..IPHDR];
            Check(o', Put(k, header, IP_SUM, Cksum(k, header)) + p[IPHDR..]) == Udp
  {
    var p := Packet(o, zerosum, e, data)[IP_SUM := 0][IP_SUM + 1 := 0];
    var header := p[..IPHDR];
    StoredChecksumVerifies(k, header, IP_SUM);
    var filled := Put(k, header, IP_SUM, Cksum(k, header));
    EitherOrderVerifies(k, o', filled);
    var q := filled + p[IPHDR..];
    assert q[0] == 0x45 && q[9] == IPPROTO_UDP && q[..IPHDR] == filled;
  }

  // ----- send_v4

  const ICMP_ECHO := 8
  const ICMP_CKSUM := 2
  const TIMEVAL := 16

  /** The ICMP echo request before its checksum is filled in. */
  function EchoRequest(o: Order, id: uint16, seqno: uint16, stamp: seq<byte>, pad: nat): seq<byte> {
    [ICMP_ECHO, 0, 0, 0] + Store(o, id) + Store(o, seqno) + (stamp + seq(pad, _ => 0xa5))
  }

  /** Lays down everything but the checksum. */
  method FillRequest(o: Order, sendbuf: array<byte>, datalen: nat, id: uint16, seqno: uint16, stamp: seq<byte>)
    requires |stamp| == TIMEVAL <= datalen && 8 + datalen <= sendbuf.Length
    modifies sendbuf
    ensures var m := EchoRequest(o, id, seqno, stamp, datalen - TIMEVAL);
            |m| == 8 + datalen && sendbuf[..] == m + old(sendbuf[8 + datalen..])
  {
    sendbuf[0], sendbuf[1] := ICMP_ECHO, 0;
    Copy(sendbuf, 4, Store(o, id));
    Copy(sendbuf, 6, Store(o, seqno));
    Copy(sendbuf, 8, seq(datalen, _ => 0xa5));
    Copy(sendbuf, 8, stamp);
    sendbuf[ICMP_CKSUM], sendbuf[ICMP_CKSUM + 1] := 0, 0;
  }

  method SendV4(o: Order, sendbuf: array<byte>, datalen: nat, pid: nat, nsent: nat, stamp: seq<byte>)
    returns (len: nat, nsent': nat)
    requires |stamp| == TIMEVAL <= datalen && 8 + datalen <= sendbuf.Length
    modifies sendbuf
    ensures len == 8 + datalen && nsent' == nsent + 1
    ensures var m := EchoRequest(o, pid % 0x1_0000, nsent % 0x1_0000, stamp, datalen - TIMEVAL);
            |m| == len && sendbuf[..] == Put(o, m, ICMP_CKSUM, Cksum(o, m)) + old(sendbuf[len..])
  {
    hide EchoRequest, Cksum, Put, Total;
    ghost var m := EchoRequest(o, pid % 0x1_0000, nsent % 0x1_0000, stamp, datalen - TIMEVAL);
    ghost var behind := sendbuf[8 + datalen..];
    FillRequest(o, sendbuf, datalen, pid % 0x1_0000, nsent % 0x1_0000, stamp);
    nsent' := nsent + 1;
    len := 8 + datalen;
    assert sendbuf[0..0 + len] == m;
    var sum := InCksum.InCksum(o, sendbuf, 0, len);
    StoreAt(o, sendbuf, ICMP_CKSUM, sum);
    PutInFront(o, m, behind, ICMP_CKSUM, sum);
  }

  /** The request verifies at any host that receives it. */
  lemma EchoRequestVerifies(o: Order, o': Order, id: uint16, seqno: uint16, stamp: seq<byte>, pad: nat)
    requires |stamp| == TIMEVAL && 8 + TIMEVAL + pad <= MAXLEN
    ensures var m := EchoRequest(o, id, seqno, stamp, pad); Cksum(o', Put(o, m, ICMP_CKSUM, Cksum(o, m))) == 0
  {
    var m := EchoRequest(o, id, seqno, stamp, pad);
    StoredChecksumVerifies(o, m, ICMP_CKSUM);
    EitherOrderVerifies(o, o', Put(o, m, ICMP_CKSUM, Cksum(o, m)));
  }

  /** The request byte by byte: type and code, then checksum, identifier and sequence number as the host keeps 16-bit words,
      the time stamp, and the pattern to the end. */
  lemma EchoRequestLayout(o: Order, id: uint16, seqno: uint16, stamp: seq<byte>, pad: nat)
    requires |stamp| == 16
    ensures var m := EchoRequest(o, id, seqno, stamp, pad);
            var r := Put(o, m, 2, Cksum(o, m));
            && |r| == 24 + pad
            && r[0] == 8 && r[1] == 0
            && Load(o, r[2], r[3]) == Cksum(o, m) && m == r[2 := 0][3 := 0]
            && Load(o, r[4], r[5]) == id && Load(o, r[6], r[7]) == seqno
            && r[8..24] == stamp
            && forall i :: 24 <= i < |r| ==> r[i] == 0xa5
  {
  }
}
