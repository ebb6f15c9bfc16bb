/** The IPv4 and UDP packet that carries a DNS answer to the tunnel device. */
module DnsPacket {
  import opened Bytes
  import opened Checksum

  const IP_HEADER := 20
  const UDP_HEADER := 8
  /** Longest answer, port included, whose packet still has a 16-bit length. */
  const MAX_ANSWER := 65509

  /** The header of section 3.1 of RFC 791 up to the checksum, and what follows it. */
  function IpFront(total: int): (b: seq<byte>)
    requires 0 <= total <= ONES
    ensures |b| == 10
  {
    [0x45, 0x00] + U16Bytes(total) + [0, 0] + [0x40, 0x00] + [64, 17]
  }

  function IpHeader(total: int, check: int, src: Key4, dst: Key4): (b: seq<byte>)
    requires 0 <= total <= ONES && 0 <= check <= ONES
    ensures |b| == IP_HEADER
  {
    IpFront(total) + U16Bytes(check) + (src + dst)
  }

  /** Ports and length: what precedes the UDP checksum (RFC 768). */
  function UdpFront(port: int, length: int): (b: seq<byte>)
    requires 0 <= port <= ONES && 0 <= length <= ONES
    ensures |b| == 6
  {
    U16Bytes(53) + U16Bytes(port) + U16Bytes(length)
  }

  function UdpSegment(port: int, length: int, check: int, payload: seq<byte>): (b: seq<byte>)
    requires 0 <= port <= ONES && 0 <= length <= ONES && 0 <= check <= ONES
    ensures |b| == UDP_HEADER + |payload|
  {
    UdpFront(port, length) + U16Bytes(check) + payload
  }

  /** The pseudo-header that the UDP checksum covers. */
  function Pseudo(src: Key4, dst: Key4, length: int): (b: seq<byte>)
    requires 0 <= length <= ONES
    ensures |b| == 12
  {
    src + dst + [0, 17] + U16Bytes(length)
  }

  lemma FirstWord(x: seq<byte>, y: seq<byte>)
    requires |x| >= 2 && |x| % 2 == 0 && U16(x[..2]) > 0
    ensures WordSum(x) + WordSum(y) > 0
  {
  }

  /** With the complement of its sum in place, an IPv4 header sums to all ones. */
  lemma IpHeaderSums(total: int, check: int, src: Key4, dst: Key4)
    requires 0 <= total <= ONES && check == ONES - OnesSum(IpHeader(total, 0, src, dst))
    ensures OnesSum(IpHeader(total, check, src, dst)) == ONES
  {
    var x := IpFront(total);
    assert x[..2] == [0x45, 0x00];
    assert U16(x[..2]) > 0;
    FirstWord(x, src + dst);
    FieldFills(x, check, src + dst);
  }

  lemma UdpSums(src: Key4, dst: Key4, port: int, length: int, check: int, payload: seq<byte>)
    requires 0 <= port <= ONES && 0 <= length <= ONES
    requires check == ONES - OnesSum(Pseudo(src, dst, length) + UdpSegment(port, length, 0, payload))
    ensures OnesSum(Pseudo(src, dst, length) + UdpSegment(port, length, check, payload)) == ONES
  {
    var h, f := Pseudo(src, dst, length), UdpFront(port, length);
    assert h + (f + U16Bytes(0) + payload) == (h + f) + U16Bytes(0) + payload;
    assert h + (f + U16Bytes(check) + payload) == (h + f) + U16Bytes(check) + payload;
    WordSumAppend(h, f);
    assert f[..2] == U16Bytes(53) && U16(f[..2]) == 53;
    FieldFills(h + f, check, payload);
  }

  /** What the UDP checksum of a built packet covers: pseudo-header, and segment with a zero field. */
  function Covered(answer: seq<byte>, localIp: Key4, dnsServerIp: Key4): (b: seq<byte>)
    requires 2 <= |answer| <= MAX_ANSWER
  {
    Pseudo(dnsServerIp, localIp, |answer| + 6) + UdpSegment(U16(answer[..2]), |answer| + 6, 0, answer[2..])
  }

  lemma CoveredPositive(answer: seq<byte>, localIp: Key4, dnsServerIp: Key4)
    requires 2 <= |answer| <= MAX_ANSWER
    ensures WordSum(Covered(answer, localIp, dnsServerIp)) > 0
  {
    var u := UdpSegment(U16(answer[..2]), |answer| + 6, 0, answer[2..]);
    WordSumAppend(Pseudo(dnsServerIp, localIp, |answer| + 6), u);
    assert u[..2] == U16Bytes(53);
  }

  /** The field comes out as zero, which RFC 768 reserves for "no checksum", exactly when the
      covered words sum to a multiple of 65535. */
  lemma ZeroFieldExact(answer: seq<byte>, localIp: Key4, dnsServerIp: Key4)
    requires 2 <= |answer| <= MAX_ANSWER
    ensures var d := Covered(answer, localIp, dnsServerIp); OnesSum(d) == ONES <==> WordSum(d) % 65535 == 0
  {
    CoveredPositive(answer, localIp, dnsServerIp);
    FoldKeeps(WordSum(Covered(answer, localIp, dnsServerIp)));
  }

  lemma WordSumTwo(x: int, y: int)
    requires 0 <= x <= ONES && 0 <= y <= ONES
    ensures WordSum(U16Bytes(x) + U16Bytes(y)) == x + y
  {
    WordSumAppend(U16Bytes(x), U16Bytes(y));
    WordSumOne(x);
    WordSumOne(y);
  }

  lemma PseudoSum()
    ensures WordSum(Pseudo([10, 0, 6, 1], [10, 0, 6, 2], 8)) == 8220
  {
    var w1, w2, w3 := U16Bytes(2560) + U16Bytes(1537), U16Bytes(2560) + U16Bytes(1538), U16Bytes(17) + U16Bytes(8);
    assert Pseudo([10, 0, 6, 1], [10, 0, 6, 2], 8) == w1 + w2 + w3;
    WordSumTwo(2560, 1537);
    WordSumTwo(2560, 1538);
    WordSumTwo(17, 8);
    WordSumAppend(w1, w2);
    WordSumAppend(w1 + w2, w3);
  }

  lemma SegmentSum()
    ensures WordSum(UdpSegment(57254, 8, 0, [])) == 57315
  {
    var v1, v2 := U16Bytes(53) + U16Bytes(57254), U16Bytes(8) + U16Bytes(0);
    assert UdpSegment(57254, 8, 0, []) == v1 + v2;
    WordSumTwo(53, 57254);
    WordSumTwo(8, 0);
    WordSumAppend(v1, v2);
  }

  /** It does for an empty answer to port 57254 between 10.0.6.1 and 10.0.6.2. */
  lemma ZeroFieldReached()
    ensures OnesSum(Covered([223, 166], [10, 0, 6, 2], [10, 0, 6, 1])) == ONES
  {
    var a: seq<byte> := [223, 166];
    assert a[..2] == a && U16(a) == 57254 && a[2..] == [];
    PseudoSum();
    SegmentSum();
    WordSumAppend(Pseudo([10, 0, 6, 1], [10, 0, 6, 2], 8), UdpSegment(57254, 8, 0, []));
    ZeroFieldExact(a, [10, 0, 6, 2], [10, 0, 6, 1]);
  }

  /** A header built with a zero checksum becomes the header with the checksum put in. */
  lemma IpPatched(total: int, check: int, src: Key4, dst: Key4)
    requires 0 <= total <= ONES && 0 <= check <= ONES
    ensures var h := IpHeader(total, 0, src, dst);
      h[..10] + U16Bytes(check) + h[12..] == IpHeader(total, check, src, dst)
  {
    var h := IpHeader(total, 0, src, dst);
    assert h[..10] == IpFront(total) && h[12..] == src + dst;
  }

  /** The IPv4 header, with its checksum computed over the header that is already there. */
  method FillIp(b: array<byte>, total: int, src: Key4, dst: Key4) returns (check: int)
    requires b.Length >= IP_HEADER && 0 <= total <= ONES
    modifies b
    ensures 0 <= check <= ONES && check == ONES - OnesSum(IpHeader(total, 0, src, dst))
    ensures b[..20] == IpHeader(total, check, src, dst)
  {
    ghost var h := IpHeader(total, 0, src, dst);
    CopyAt(b, 0, IpHeader(total, 0, src, dst));
    assert b[..20] == h;
    check := Compute(b[..20]);
    CopyAt(b, 10, U16Bytes(check));
    IpPatched(total, check, src, dst);
    assert b[..20] == h[..10] + U16Bytes(check) + h[12..];
  }

  lemma UdpPatched(port: int, length: int, check: int, payload: seq<byte>)
    requires 0 <= port <= ONES && 0 <= length <= ONES && 0 <= check <= ONES
    ensures var u := UdpSegment(port, length, 0, payload);
      u[..6] + U16Bytes(check) + u[8..] == UdpSegment(port, length, check, payload)
  {
    var u := UdpSegment(port, length, 0, payload);
    assert u[..6] == UdpFront(port, length) && u[8..] == payload;
  }

  lemma TailPatched(front: seq<byte>, u: seq<byte>, c: seq<byte>)
    requires |front| == 20 && |u| >= 8 && |c| == 2
    ensures (front + u)[..26] + c + (front + u)[28..] == front + (u[..6] + c + u[8..])
  {
  }

  lemma SplitAt20(b: array<byte>, front: seq<byte>, rest: seq<byte>)
    requires |front| == 20 && b[..] == front + rest
    ensures b[..20] == front && b[20..] == rest
  {
    assert b[..20] == b[..][..20] && b[20..] == b[..][20..];
  }

  lemma JoinAt20(b: array<byte>)
    requires b.Length >= 20
    ensures b[..] == b[..20] + b[20..]
  {
  }

  /** The UDP segment, with its checksum computed over pseudo-header and segment. */
  method FillUdp(b: array<byte>, length: int, port: int, src: Key4, dst: Key4, payload: seq<byte>) returns (check: int)
    requires b.Length == IP_HEADER + UDP_HEADER + |payload|
    requires 0 <= length <= ONES && 0 <= port <= ONES
    modifies b
    ensures 0 <= check <= ONES && b[..20] == old(b[..20])
    ensures b[20..] == UdpSegment(port, length, check, payload)
    ensures |payload| <= 65507 ==>
      check == ONES - OnesSum(Pseudo(src, dst, length) + UdpSegment(port, length, 0, payload))
  {
    ghost var u, front := UdpSegment(port, length, 0, payload), b[..20];
    CopyAt(b, 20, UdpSegment(port, length, 0, payload));
    assert b[..] == front + u;
    assert b[20..] == u;
    check := Compute(Pseudo(src, dst, length) + b[20..]);
    CopyAt(b, 26, U16Bytes(check));
    UdpPatched(port, length, check, payload);
    TailPatched(front, u, U16Bytes(check));
    SplitAt20(b, front, UdpSegment(port, length, check, payload));
  }

  lemma IpLayout(total: int, check: int, src: Key4, dst: Key4, rest: seq<byte>)
    requires 0 <= total <= ONES && 0 <= check <= ONES
    ensures var p := IpHeader(total, check, src, dst) + rest;
      && p[..2] == [0x45, 0] && U16(p[2..4]) == total && p[4..10] == [0, 0, 0x40, 0, 64, 17]
      && p[12..16] == src && p[16..20] == dst
      && p[..20] == IpHeader(total, check, src, dst) && p[20..] == rest
  {
    var p := IpHeader(total, check, src, dst) + rest;
    assert p[2..4] == U16Bytes(total);
  }

  lemma UdpLayout(port: int, length: int, check: int, payload: seq<byte>)
    requires 0 <= port <= ONES && 0 <= length <= ONES && 0 <= check <= ONES
    ensures var u := UdpSegment(port, length, check, payload);
      U16(u[..2]) == 53 && u[2..4] == U16Bytes(port) && U16(u[4..6]) == length && U16(u[6..8]) == check && u[8..] == payload
  {
    var u := UdpSegment(port, length, check, payload);
    assert u[..2] == U16Bytes(53) && u[4..6] == U16Bytes(length) && u[6..8] == U16Bytes(check);
  }

  /** What a receiver checks of the packet, and what it finds in it. */
  ghost predicate Verifies(p: seq<byte>, answer: seq<byte>, localIp: Key4, dnsServerIp: Key4)
    requires |answer| >= 2
  {
    && |p| == |answer| + 26 && p[..2] == [0x45, 0] && U16(p[2..4]) == |p| && p[4..10] == [0, 0, 0x40, 0, 64, 17]
    && p[12..16] == dnsServerIp && p[16..20] == localIp
    && var u := p[20..];
       && U16(u[..2]) == 53 && u[2..4] == answer[..2] && U16(u[4..6]) == |u| && u[8..] == answer[2..]
       && OnesSum(p[..20]) == 65535
       && OnesSum(dnsServerIp + localIp + [0, 17] + u[4..6] + u) == 65535
  }

  /** The packet as it is put together, for the answers whose lengths fit. */
  lemma Assembled(answer: seq<byte>, localIp: Key4, dnsServerIp: Key4, ipCheck: int, udpCheck: int)
    requires 2 <= |answer| <= MAX_ANSWER
    requires ipCheck == ONES - OnesSum(IpHeader(|answer| + 26, 0, dnsServerIp, localIp))
    requires udpCheck == ONES - OnesSum(Covered(answer, localIp, dnsServerIp))
    ensures 0 <= udpCheck <= ONES
    ensures var p := IpHeader(|answer| + 26, ipCheck, dnsServerIp, localIp)
                     + UdpSegment(U16(answer[..2]), |answer| + 6, udpCheck, answer[2..]);
      Verifies(p, answer, localIp, dnsServerIp) && U16(p[26..28]) == udpCheck
  {
    var port, length, payload := U16(answer[..2]), |answer| + 6, answer[2..];
    var u := UdpSegment(port, length, udpCheck, payload);
    var p := IpHeader(|answer| + 26, ipCheck, dnsServerIp, localIp) + u;
    IpLayout(|answer| + 26, ipCheck, dnsServerIp, localIp, u);
    UdpLayout(port, length, udpCheck, payload);
    IpHeaderSums(|answer| + 26, ipCheck, dnsServerIp, localIp);
    UdpSums(dnsServerIp, localIp, port, length, udpCheck, payload);
    assert p[26..28] == u[6..8];
    assert Pseudo(dnsServerIp, localIp, length) == dnsServerIp + localIp + [0, 17] + u[4..6];
  }

  /** Beyond that no packet can state its own length. */
  lemma TooLong(p: seq<byte>, answer: seq<byte>, localIp: Key4, dnsServerIp: Key4)
    requires |answer| > MAX_ANSWER
    ensures !Verifies(p, answer, localIp, dnsServerIp)
  {
  }

  /** Both headers and the payload in a new array; lengths are cut to 16 bits. */
  method Assemble(answer: seq<byte>, localIp: Key4, dnsServerIp: Key4) returns (b: array<byte>, ghost ipCheck: int, ghost udpCheck: int)
    requires |answer| >= 2
    ensures fresh(b) && b.Length == |answer| + 26
    ensures |answer| <= MAX_ANSWER ==>
      && ipCheck == ONES - OnesSum(IpHeader(|answer| + 26, 0, dnsServerIp, localIp))
      && udpCheck == ONES - OnesSum(Covered(answer, localIp, dnsServerIp)) && 0 <= udpCheck <= ONES
      && b[..] == IpHeader(|answer| + 26, ipCheck, dnsServerIp, localIp)
                  + UdpSegment(U16(answer[..2]), |answer| + 6, udpCheck, answer[2..])
  {
    var payload := answer[2..];
    var port := U16(answer[..2]);
    var totalLen := IP_HEADER + UDP_HEADER + |payload|;
    var total, length := totalLen % 0x1_0000, (UDP_HEADER + |payload|) % 0x1_0000;
    assert |answer| <= MAX_ANSWER ==> total == |answer| + 26 && length == |answer| + 6;
    b := new byte[totalLen](_ => 0);
    ipCheck := FillIp(b, total, dnsServerIp, localIp);
    udpCheck := FillUdp(b, length, port, dnsServerIp, localIp, payload);
    JoinAt20(b);
  }

  /** `BuildDNSResponse`.  The packet has the right lengths, addresses, ports and payload, and
      both checksums verify, exactly for the answers of up to 65509 bytes, odd or even.  For
      those the UDP field is sent as zero exactly when the covered words sum to a multiple of
      65535. */
  method BuildDNSResponse(answer: seq<byte>, localIp: Key4, dnsServerIp: Key4) returns (packet: array?<byte>)
    ensures |answer| < 2 <==> packet == null
    ensures packet != null ==> packet.Length == |answer| + 26
    ensures packet != null ==> (Verifies(packet[..], answer, localIp, dnsServerIp) <==> |answer| <= 65509)
    ensures packet != null && |answer| <= 65509 ==>
      (U16(packet[26..28]) == 0 <==> WordSum(Covered(answer, localIp, dnsServerIp)) % 65535 == 0)
  {
    if |answer| < 2 { return null; }
    ghost var ipCheck, udpCheck;
    packet, ipCheck, udpCheck := Assemble(answer, localIp, dnsServerIp);
    if |answer| > MAX_ANSWER {
      TooLong(packet[..], answer, localIp, dnsServerIp);
      return;
    }
    Assembled(answer, localIp, dnsServerIp, ipCheck, udpCheck);
    ZeroFieldExact(answer, localIp, dnsServerIp);
    assert packet[26..28] == packet[..][26..28];
  }
}
