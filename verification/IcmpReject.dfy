/** The ICMP Port Unreachable replies of go/icmp_reject.go (RFC 792; section 3.1 of RFC 4443). */
module IcmpReject {
  import opened Buffers
  import opened Bytes
  import opened Checksum
  import opened ChecksumAlgebra
  import opened Ipv6Walker
  import opened PacketFilter

  // ---------- the replies as values ----------

  function IcmpMessage(icmpType: byte, code: byte, quoted: seq<byte>): seq<byte> {
    [icmpType, code, 0, 0, 0, 0, 0, 0] + quoted
  }

  predicate AnswerableV4(pkt: seq<byte>) {
    |pkt| >= 28 && pkt[9] == UDP && Ihl(pkt[0]) >= 20 && |pkt| >= Ihl(pkt[0]) + 8
  }

  function HeaderV4(pkt: seq<byte>, totalLen: word): (h: seq<byte>)
    requires |pkt| >= 20
    ensures |h| == 20
  {
    [0x45, 0] + Octets(totalLen) + [0, 0, 0, 0, 64, ICMP, 0, 0] + pkt[16..20] + pkt[12..16]
  }

  function BodyV4(pkt: seq<byte>): seq<byte>
    requires AnswerableV4(pkt)
  {
    var icmp := IcmpMessage(3, 3, pkt[..Ihl(pkt[0]) + 8]);
    Put(icmp, 2, ChecksumOf(icmp))
  }

  function ReplyV4(pkt: seq<byte>): seq<byte>
    requires AnswerableV4(pkt)
  {
    var h := HeaderV4(pkt, 36 + Ihl(pkt[0]));
    Put(h, 10, ChecksumOf(h)) + BodyV4(pkt)
  }

  predicate AnswerableV6(pkt: seq<byte>) {
    |pkt| >= 48 && pkt[6] == UDP
  }

  function HeaderV6(pkt: seq<byte>): (h: seq<byte>)
    requires |pkt| >= 40
    ensures |h| == 40
  {
    [0x60, 0, 0, 0] + Octets(56) + [ICMPV6, 64] + pkt[24..40] + pkt[8..24]
  }

  /** The pseudo-header of section 8.1 of RFC 8200, from a packet's own base header. */
  function PseudoHeader(pkt: seq<byte>, upperLength: word): seq<byte>
    requires |pkt| >= 40
  {
    pkt[8..24] + pkt[24..40] + [0, 0] + Octets(upperLength) + [0, 0, 0, ICMPV6]
  }

  function BodyV6(pkt: seq<byte>): seq<byte>
    requires AnswerableV6(pkt)
  {
    var icmp := IcmpMessage(1, 4, pkt[..48]);
    Put(icmp, 2, ChecksumOf(PseudoHeader(HeaderV6(pkt), 56) + icmp))
  }

  function ReplyV6(pkt: seq<byte>): seq<byte>
    requires AnswerableV6(pkt)
  {
    HeaderV6(pkt) + BodyV6(pkt)
  }

  // ---------- the builders ----------

  method BuildICMPv4PortUnreachable(pkt: seq<byte>) returns (out: array?<byte>)
    ensures out != null <==> AnswerableV4(pkt)
    ensures out != null ==> fresh(out) && out[..] == ReplyV4(pkt)
  {
    if |pkt| < 28 || pkt[9] != UDP {
      return null;
    }
    var ihl := Ihl(pkt[0]);
    if ihl < 20 || |pkt| < ihl + 8 {
      return null;
    }
    var bodyLen := ihl + 8;
    var icmpLen := 8 + bodyLen;
    var icmp := NewBuffer(icmpLen);
    FillBodyV4(icmp, pkt);

    var totalLen := 20 + icmpLen;
    out := NewBuffer(totalLen);
    FillHeaderV4(out, pkt, totalLen);
    CopyInto(out, 20, icmp[..]);
  }

  method FillBodyV4(icmp: array<byte>, pkt: seq<byte>)
    requires AnswerableV4(pkt) && icmp.Length == 16 + Ihl(pkt[0]) && icmp[..] == Zeros(icmp.Length)
    modifies icmp
    ensures icmp[..] == BodyV4(pkt)
  {
    icmp[0], icmp[1] := 3, 3;
    CopyInto(icmp, 8, pkt[..Ihl(pkt[0]) + 8]);
    assert icmp[..] == IcmpMessage(3, 3, pkt[..Ihl(pkt[0]) + 8]);
    var c := InternetChecksum(icmp[..]);
    PutUint16(icmp, 2, c);
  }

  method FillHeaderV4(out: array<byte>, pkt: seq<byte>, totalLen: word)
    requires |pkt| >= 20 && 20 <= out.Length == totalLen && out[..] == Zeros(totalLen)
    modifies out
    ensures var h := HeaderV4(pkt, totalLen); out[..20] == Put(h, 10, ChecksumOf(h))
  {
    out[0] := 0x45;
    PutUint16(out, 2, totalLen);
    out[8] := 64;
    out[9] := ICMP;
    CopyInto(out, 12, pkt[16..20]);
    CopyInto(out, 16, pkt[12..16]);
    assert out[..20] == HeaderV4(pkt, totalLen);
    var c := InternetChecksum(out[..20]);
    PutUint16(out, 10, c);
  }

  method BuildICMPv6PortUnreachable(pkt: seq<byte>) returns (out: array?<byte>)
    ensures out != null <==> AnswerableV6(pkt)
    ensures out != null ==> fresh(out) && out[..] == ReplyV6(pkt)
  {
    if |pkt| < 48 || pkt[6] != UDP {
      return null;
    }
    var bodyLen := 48;
    var icmpLen := 8 + bodyLen;
    var icmp := NewBuffer(icmpLen);
    icmp[0], icmp[1] := 1, 4;
    CopyInto(icmp, 8, pkt[..bodyLen]);
    assert icmp[..] == IcmpMessage(1, 4, pkt[..bodyLen]);

    out := NewBuffer(40 + icmpLen);
    FillHeaderV6(out, pkt);
    var c := PseudoChecksum(out[..40], icmp[..]);
    PutUint16(icmp, 2, c);
    assert icmp[..] == BodyV6(pkt);
    CopyInto(out, 40, icmp[..]);
  }

  method FillHeaderV6(out: array<byte>, pkt: seq<byte>)
    requires |pkt| >= 40 && out.Length == 96 && out[..] == Zeros(96)
    modifies out
    ensures out[..40] == HeaderV6(pkt)
  {
    out[0] := 0x60;
    PutUint16(out, 4, 56);
    out[6], out[7] := ICMPV6, 64;
    CopyInto(out, 8, pkt[24..40]);
    CopyInto(out, 24, pkt[8..24]);
  }

  /** The sum over source, destination, length, next header and message, without laying the pseudo-header out. */
  method PseudoChecksum(header: seq<byte>, icmp: seq<byte>) returns (c: word)
    requires |header| == 40 && |icmp| == 56
    ensures c == ChecksumOf(PseudoHeader(header, 56) + icmp)
  {
    var sum, w0 := AddWords(0, header[8..24]);
    ghost var wraps, carry: nat := w0, 0;
    sum, carry := AddWords(sum, header[24..40]);
    wraps := wraps + carry;
    sum, carry := AddWord(sum, |icmp|);
    wraps := wraps + carry;
    sum, carry := AddWord(sum, ICMPV6);
    wraps := wraps + carry;
    sum, carry := AddWords(sum, icmp);
    wraps := wraps + carry;
    PseudoTotal(header, icmp);
    WrapIsUnique(Total(Words(PseudoHeader(header, 56) + icmp)), sum, wraps);
    var folded, _ := FoldCarries(sum);
    c := 0xFFFF - folded;
  }

  lemma PseudoTotal(header: seq<byte>, icmp: seq<byte>)
    requires |header| == 40 && |icmp| == 56
    ensures Total(Words(PseudoHeader(header, 56) + icmp)) ==
            Total(Words(header[8..24])) + Total(Words(header[24..40])) + 56 + ICMPV6 as int + Total(Words(icmp))
  {
    var src, dst := header[8..24], header[24..40];
    var rest: seq<byte> := [0, 0, 0, 56, 0, 0, 0, ICMPV6];
    assert PseudoHeader(header, 56) + icmp == src + (dst + (rest + icmp));
    TotalOfConcat(src, dst + (rest + icmp));
    TotalOfConcat(dst, rest + icmp);
    TotalOfConcat(rest, icmp);
    TotalOfLengthAndProtocol();
  }

  lemma TotalOfConcat(a: seq<byte>, b: seq<byte>)
    requires |a| % 2 == 0
    ensures Total(Words(a + b)) == Total(Words(a)) + Total(Words(b))
  {
    WordsConcat(a, b);
    TotalConcat(Words(a), Words(b));
  }

  lemma TotalOfLengthAndProtocol()
    ensures Total(Words([0, 0, 0, 56, 0, 0, 0, ICMPV6])) == 56 + ICMPV6 as int
  {
    TotalOfConcat([0, 0, 0, 56], [0, 0, 0, ICMPV6]);
    TotalOfConcat([0, 0], [0, 56]);
    TotalOfConcat([0, 0], [0, ICMPV6]);
  }

  // ---------- the replies verify ----------

  /** Both checksums of an IPv4 reply come out as zero when the receiver sums over them. */
  lemma ReplyV4Verifies(pkt: seq<byte>)
    requires AnswerableV4(pkt)
    ensures var reply := ReplyV4(pkt);
            ChecksumOf(reply[..20]) == 0 && ChecksumOf(reply[20..]) == 0
  {
    var h := HeaderV4(pkt, 36 + Ihl(pkt[0]));
    var icmp := IcmpMessage(3, 3, pkt[..Ihl(pkt[0]) + 8]);
    FilledChecksumVerifies(h, 10);
    FilledChecksumVerifies(icmp, 2);
    assert ReplyV4(pkt)[..20] == Put(h, 10, ChecksumOf(h));
    assert ReplyV4(pkt)[20..] == Put(icmp, 2, ChecksumOf(icmp));
  }

  /** The ICMPv6 reply sums to 0xFFFF together with the pseudo-header read back from the reply itself. */
  lemma ReplyV6Verifies(pkt: seq<byte>)
    requires AnswerableV6(pkt)
    ensures var reply := ReplyV6(pkt);
            |reply| == 96 && reply[4..7] == [0, 56, 58] &&
            ChecksumOf(reply[8..24] + reply[24..40] + [0, 0, 0, 56] + [0, 0, 0, 58] + reply[40..]) == 0
  {
    var h := HeaderV6(pkt);
    var icmp := IcmpMessage(1, 4, pkt[..48]);
    var pseudo := PseudoHeader(h, 56);
    var reply := ReplyV6(pkt);
    var c := ChecksumOf(pseudo + icmp);
    assert pseudo + Put(icmp, 2, c) == Put(pseudo + icmp, 42, c);
    FilledChecksumVerifies(pseudo + icmp, 42);
    assert reply[..40] == h && reply[40..] == Put(icmp, 2, c);
    assert reply[4..7] == h[4..7] == [0, 56, 58];
    assert reply[8..24] + reply[24..40] + [0, 0, 0, 56] + [0, 0, 0, 58] == pseudo by {
      assert reply[8..24] == h[8..24] && reply[24..40] == h[24..40];
    }
  }

  // ---------- the replies are faithful and pass the filters ----------

  /** Addressed back to the sender, carrying enough of the packet to identify its ports, and no echo or UDP itself. */
  lemma ReplyV4IsFaithful(pkt: seq<byte>, port: word)
    requires AnswerableV4(pkt)
    ensures var reply := ReplyV4(pkt);
            |reply| == 36 + Ihl(pkt[0]) == reply[2] as int * 0x100 + reply[3] as int &&
            reply[0] == 0x45 && reply[1] == 0 && reply[4..10] == [0, 0, 0, 0, 64, 1] &&
            reply[20] == 3 && reply[21] == 3 && reply[24..28] == [0, 0, 0, 0] &&
            reply[12..16] == pkt[16..20] && reply[16..20] == pkt[12..16] &&
            reply[28..] == pkt[..Ihl(pkt[0]) + 8] &&
            (UdpDstPortIPv4(reply[28..], port) <==> UdpDstPortIPv4(pkt, port)) &&
            !ShouldBlockICMP(reply) && !UdpDstPortIPv4(reply, port)
  {
    var h := HeaderV4(pkt, 36 + Ihl(pkt[0]));
    var reply := ReplyV4(pkt);
    assert reply[..20] == Put(h, 10, ChecksumOf(h));
    assert reply[20..] == BodyV4(pkt);
    assert reply[20] == BodyV4(pkt)[0] == 3 && reply[21] == BodyV4(pkt)[1] == 3;
    assert reply[24..28] == BodyV4(pkt)[4..8] == [0, 0, 0, 0];
    assert reply[28..] == BodyV4(pkt)[8..] == pkt[..Ihl(pkt[0]) + 8];
    HeaderV4Fields(pkt, 36 + Ihl(pkt[0]), reply);
  }

  lemma HeaderV4Fields(pkt: seq<byte>, totalLen: word, reply: seq<byte>)
    requires |pkt| >= 20 && |reply| >= 20
    requires var h := HeaderV4(pkt, totalLen); reply[..20] == Put(h, 10, ChecksumOf(h))
    ensures reply[0] == 0x45 && reply[1] == 0 && reply[2] as int * 0x100 + reply[3] == totalLen as int
    ensures reply[4..10] == [0, 0, 0, 0, 64, 1]
    ensures reply[12..16] == pkt[16..20] && reply[16..20] == pkt[12..16]
  {
    var h := HeaderV4(pkt, totalLen);
    var r := reply[..20];
    assert r[12..20] == h[12..20] == pkt[16..20] + pkt[12..16];
    assert reply[12..16] == r[12..20][..4] && reply[16..20] == r[12..20][4..];
    assert r[0] == 0x45 && r[1] == 0 && r[2] == totalLen / 0x100 && r[3] == totalLen % 0x100;
    assert reply[4..10] == r[4..10] == h[4..10] == [0, 0, 0, 0, 64, 1];
  }

  lemma ReplyV6IsFaithful(pkt: seq<byte>, port: word)
    requires AnswerableV6(pkt)
    ensures var reply := ReplyV6(pkt);
            |reply| == 96 && reply[..8] == [0x60, 0, 0, 0, 0, 56, 58, 64] && Walk(reply) == Transport(58, 40) &&
            reply[40] == 1 && reply[41] == 4 && reply[44..48] == [0, 0, 0, 0] &&
            reply[8..24] == pkt[24..40] && reply[24..40] == pkt[8..24] &&
            reply[48..] == pkt[..48] &&
            (UdpDstPortIPv6(reply[48..], port) <==> UdpDstPortIPv6(pkt, port)) &&
            !EchoIPv6(reply) && !UdpDstPortIPv6(reply, port)
  {
    var h := HeaderV6(pkt);
    var reply := ReplyV6(pkt);
    assert reply[..40] == h && reply[40..] == BodyV6(pkt);
    assert reply[40] == BodyV6(pkt)[0] == 1 && reply[41] == BodyV6(pkt)[1] == 4;
    assert reply[44..48] == BodyV6(pkt)[4..8] == [0, 0, 0, 0];
    assert reply[..8] == h[..8] == [0x60, 0, 0, 0, 0, 56, 58, 64];
    assert reply[48..] == BodyV6(pkt)[8..] == pkt[..48];
    assert h[8..40] == pkt[24..40] + pkt[8..24];
    assert reply[8..24] == h[8..40][..16] && reply[24..40] == h[8..40][16..];
    assert reply[6] == h[6] == ICMPV6;
  }
}
