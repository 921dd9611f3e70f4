/** What the read loop makes of IPv4 packets written out octet by octet (section 3.1 of RFC 791). */
module Ipv4Layout {
  import opened Bytes
  import opened IcmpReject
  import opened PacketFilter
  import opened TunReadLoop

  /** An IPv4 packet: header length in words, octets 1 to 8, protocol, the rest of the header, and what follows it. */
  datatype Ipv4Packet = Ipv4Packet(words: nat, fields: seq<byte>, proto: byte, rest: seq<byte>, body: seq<byte>)

  predicate Assembled(p: Ipv4Packet) {
    5 <= p.words <= 15 && |p.fields| == 8 && |p.rest| == 4 * p.words - 10
  }

  function Wire(p: Ipv4Packet): seq<byte>
    requires Assembled(p)
  {
    [0x40 + p.words] + p.fields + [p.proto] + p.rest + p.body
  }

  lemma Layout(p: Ipv4Packet)
    requires Assembled(p)
    ensures var pkt := Wire(p);
            && |pkt| == 4 * p.words + |p.body| && pkt[0] == 0x40 + p.words && pkt[9] == p.proto
            && Ihl(pkt[0]) == 4 * p.words && pkt[4 * p.words..] == p.body
    ensures forall i :: 0 <= i < |p.body| ==> Wire(p)[4 * p.words + i] == p.body[i]
  {
    var pkt := Wire(p);
    assert pkt[4 * p.words..] == p.body;
    forall i | 0 <= i < |p.body| ensures pkt[4 * p.words + i] == p.body[i] {
      assert pkt[4 * p.words..][i] == p.body[i];
    }
  }

  /** Addressed to UDP port 443: the ports come first, the destination second, in 8 octets of header and payload. */
  predicate ToQuic(p: Ipv4Packet) {
    p.proto == 17 && |p.body| >= 4 && 4 * p.words + |p.body| >= 28 && p.body[2] as int * 0x100 + p.body[3] == 443
  }

  /** Exactly when an assembled IPv4 packet is blocked as an echo, rejected as QUIC, answered, and passed. */
  lemma DecideOfIpv4(allowICMP: bool, blockQuic: bool, p: Ipv4Packet)
    requires Assembled(p)
    ensures var v := Decide(allowICMP, blockQuic, Wire(p));
            && (v == EchoBlocked <==> !allowICMP && p.proto == 1 && MissingOrEcho(p.body))
            && (v.QuicRejected? <==> blockQuic && ToQuic(p))
            && (v.QuicRejected? ==> (v.reply.Some? <==> |p.body| >= 8))
            && (v == EchoBlocked || v.QuicRejected? || v == Passed(IPv4))
  {
    Layout(p);
  }

  /** The reply goes to an assembled packet's sender and quotes its header and the first 8 octets behind it. */
  lemma AnswerToIpv4(p: Ipv4Packet)
    requires Assembled(p)
    ensures AnswerableV4(Wire(p)) <==> p.proto == 17 && |p.body| >= 8
    ensures p.proto == 17 && |p.body| >= 8 ==>
              ReplyV4(Wire(p))[28..] == [0x40 + p.words] + p.fields + [p.proto] + p.rest + p.body[..8]
  {
    Layout(p);
    if p.proto == 17 && |p.body| >= 8 {
      ReplyV4IsFaithful(Wire(p), 443);
      assert Wire(p)[..4 * p.words + 8] == [0x40 + p.words] + p.fields + [p.proto] + p.rest + p.body[..8];
    }
  }

  /** Malformed IPv4 packets are never taken for QUIC, and an ICMP one cut short in its header is blocked. */
  lemma DecideOfMalformed(allowICMP: bool, blockQuic: bool, pkt: seq<byte>)
    requires pkt != [] && 0x40 <= pkt[0] <= 0x4F
    requires |pkt| < 20 || pkt[0] < 0x45 || |pkt| < 4 * (pkt[0] as int - 0x40)
    ensures !Decide(allowICMP, blockQuic, pkt).QuicRejected?
    ensures Decide(allowICMP, blockQuic, pkt) == EchoBlocked <==>
            !allowICMP && |pkt| > 9 && pkt[9] == 1 &&
            (|pkt| < 20 || MissingOrEcho(pkt[Min(|pkt|, 4 * (pkt[0] as int - 0x40))..]))
  {
  }

  function Min(x: nat, y: nat): nat {
    if x < y then x else y
  }

  /** Packets of no IP version known are neither injected nor answered nor counted. */
  lemma OtherVersionsSkipped(allowICMP: bool, blockQuic: bool, pkt: seq<byte>)
    requires pkt != [] && !(0x40 <= pkt[0] <= 0x4F) && !(0x60 <= pkt[0] <= 0x6F)
    ensures Decide(allowICMP, blockQuic, pkt) == Skipped
  {
  }
}
