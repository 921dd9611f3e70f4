/** The echo and UDP-port filters of go/engine.go and go/icmp_reject.go. */
module PacketFilter {
  import opened Bytes
  import opened Ipv6Walker

  const ICMP: byte := 1
  const UDP: byte := 17
  const ICMPV6: byte := 58

  predicate EchoType(icmpType: byte) {
    icmpType == 0 || icmpType == 8 || icmpType == 128 || icmpType == 129
  }

  /** The IPv4 header length in octets. */
  function Ihl(first: byte): nat {
    first % 0x10 * 4
  }

  /** shouldBlockICMP for IPv4: malformed packets are blocked. */
  predicate ShouldBlockICMP(pkt: seq<byte>) {
    if |pkt| < 20 then true
    else if |pkt| < Ihl(pkt[0]) + 1 then true
    else EchoType(pkt[Ihl(pkt[0])])
  }

  predicate ShouldBlockICMPv6(pkt: seq<byte>, icmpOffset: nat) {
    |pkt| < icmpOffset + 1 || EchoType(pkt[icmpOffset])
  }

  predicate UdpDstPortIPv4(pkt: seq<byte>, port: word) {
    |pkt| >= 28 && pkt[9] == UDP && Ihl(pkt[0]) >= 20 && |pkt| >= Ihl(pkt[0]) + 4 &&
    Word(pkt[Ihl(pkt[0]) + 2], pkt[Ihl(pkt[0]) + 3]) == port
  }

  predicate UdpDstPortIPv6(pkt: seq<byte>, port: word) {
    match Walk(pkt)
    case NoHeader => false
    case Transport(proto, off) => proto == UDP && |pkt| >= off + 4 && Word(pkt[off + 2], pkt[off + 3]) == port
  }

  /** The read loop's echo test for IPv6. */
  predicate EchoIPv6(pkt: seq<byte>) {
    match Walk(pkt)
    case NoHeader => false
    case Transport(proto, off) => proto == ICMPV6 && ShouldBlockICMPv6(pkt, off)
  }

  /** An ICMP message that is missing, or an echo of either IP version: the types spelled out. */
  predicate MissingOrEcho(body: seq<byte>) {
    body == [] || body[0] == 0 || body[0] == 8 || body[0] == 128 || body[0] == 129
  }

  // ---------- what the IPv6 filters decide, in terms of the packet the sender assembled ----------

  /** Echo messages are found behind any seven extension headers and nowhere else. */
  lemma EchoOfPrint(p: Packet)
    requires ValidPacket(p)
    ensures EchoIPv6(Print(p)) <==>
            |p.exts| <= 7 && p.proto == 58 && MissingOrEcho(p.body)
  {
    WalkOfPrint(p);
    PrintLayout(p);
    if p.body != [] {
      assert Print(p)[40 + ChainSize(p.exts)..][0] == p.body[0];
    }
  }

  lemma UdpPortOfPrint(p: Packet, port: word)
    requires ValidPacket(p)
    ensures UdpDstPortIPv6(Print(p), port) <==>
            |p.exts| <= 7 && p.proto == 17 && |p.body| >= 4 && p.body[2] as int * 0x100 + p.body[3] == port
  {
    WalkOfPrint(p);
    PrintLayout(p);
    if |p.body| >= 4 {
      var at := 40 + ChainSize(p.exts);
      assert Print(p)[at..][2] == Print(p)[at + 2] && Print(p)[at..][3] == Print(p)[at + 3];
    }
  }

  /**
   * Splicing extension headers in changes no verdict while the chain has at most seven; after that both filters let
   * go.
   */
  lemma SpliceKeepsVerdicts(pkt: seq<byte>, hs: seq<Extension>, port: word)
    requires Walk(pkt).Transport? && ValidChain(hs)
    ensures var few := |hs| + |Decompose(pkt).exts| <= 7;
            (EchoIPv6(Splice(pkt, hs)) <==> few && EchoIPv6(pkt)) &&
            (UdpDstPortIPv6(Splice(pkt, hs), port) <==> few && UdpDstPortIPv6(pkt, port))
  {
    var p := Decompose(pkt);
    var q := p.(exts := hs + p.exts);
    PrintOfDecompose(pkt);
    SpliceIsPrinted(p, hs);
    EchoOfPrint(p);
    EchoOfPrint(q);
    UdpPortOfPrint(p, port);
    UdpPortOfPrint(q, port);
  }

  /** Trailing octets change no verdict once the ICMPv6 type or the UDP ports are inside the packet. */
  lemma TrailingKeepsVerdicts(pkt: seq<byte>, extra: seq<byte>, port: word)
    requires Walk(pkt).Transport?
    ensures |pkt| > Walk(pkt).offset ==> (EchoIPv6(pkt + extra) <==> EchoIPv6(pkt))
    ensures |pkt| >= Walk(pkt).offset + 4 ==> (UdpDstPortIPv6(pkt + extra, port) <==> UdpDstPortIPv6(pkt, port))
  {
    TrailingBytesIrrelevant(pkt, extra);
  }
}
