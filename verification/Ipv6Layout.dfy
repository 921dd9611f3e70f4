/** What the extension-header walk makes of packets written out octet by octet (sections 3 and 4 of RFC 8200). */
module Ipv6Layout {
  import opened Bytes
  import opened Ipv6Walker

  /** A base header naming next, up to and including its addresses. */
  function Base(head: seq<byte>, next: byte, tail: seq<byte>): seq<byte> {
    head + [next] + tail
  }

  lemma BaseOctets(head: seq<byte>, next: byte, tail: seq<byte>, rest: seq<byte>)
    requires |head| == 6 && |tail| == 33
    ensures var pkt := Base(head, next, tail) + rest;
            |pkt| == 40 + |rest| && pkt[6] == next && pkt[40..] == rest && pkt[..6] == head && pkt[7..40] == tail
  {
  }

  /** Anything but 0, 43, 44, 59 and 60 right behind the base header is the upper layer. */
  lemma NoExtension(head: seq<byte>, proto: byte, tail: seq<byte>, body: seq<byte>)
    requires |head| == 6 && |tail| == 33
    requires proto != 0 && proto != 43 && proto != 44 && proto != 59 && proto != 60
    ensures Walk(Base(head, proto, tail) + body) == Transport(proto, 40)
  {
    BaseOctets(head, proto, tail, body);
  }

  lemma NoNextHeader(head: seq<byte>, tail: seq<byte>, body: seq<byte>)
    requires |head| == 6 && |tail| == 33
    ensures Walk(Base(head, 59, tail) + body) == NoHeader
  {
    BaseOctets(head, 59, tail, body);
  }

  lemma TooShort(pkt: seq<byte>)
    requires |pkt| < 40
    ensures Walk(pkt) == NoHeader
  {
  }

  /** Hop-by-Hop, Routing and Destination Options give their own length in units of 8 octets, not counting the first. */
  lemma OneSizedHeader(
      head: seq<byte>, k: byte, tail: seq<byte>, proto: byte, l: byte, options: seq<byte>, body: seq<byte>)
    requires |head| == 6 && |tail| == 33 && (k == 0 || k == 43 || k == 60)
    requires proto != 0 && proto != 43 && proto != 44 && proto != 59 && proto != 60
    requires |options| == 8 * l + 6
    ensures Walk(Base(head, k, tail) + ([proto, l] + options + body)) == Transport(proto, 40 + 8 * (l as int + 1))
  {
    BaseOctets(head, k, tail, [proto, l] + options + body);
    var pkt := Base(head, k, tail) + ([proto, l] + options + body);
    assert pkt[40] == pkt[40..][0] == proto && pkt[41] == pkt[40..][1] == l;
    WalkEndsChain(pkt, 40 + 8 * (l as int + 1), proto, 7);
    WalkOneStep(pkt, k, 40, 8);
  }

  /** A Fragment header has 8 octets whatever its second one says. */
  lemma OneFragmentHeader(head: seq<byte>, tail: seq<byte>, proto: byte, fields: seq<byte>, body: seq<byte>)
    requires |head| == 6 && |tail| == 33
    requires proto != 0 && proto != 43 && proto != 44 && proto != 59 && proto != 60
    requires |fields| == 7
    ensures Walk(Base(head, 44, tail) + ([proto] + fields + body)) == Transport(proto, 48)
  {
    BaseOctets(head, 44, tail, [proto] + fields + body);
    var pkt := Base(head, 44, tail) + ([proto] + fields + body);
    assert pkt[40] == pkt[40..][0] == proto;
    WalkEndsChain(pkt, 48, proto, 7);
    WalkOneStep(pkt, 44, 40, 8);
  }

  lemma WalkOneStep(pkt: seq<byte>, k: byte, off: nat, steps: nat)
    requires steps > 0 && off + 8 <= |pkt| && (k == 0 || k == 43 || k == 44 || k == 60)
    ensures WalkFrom(pkt, k, off, steps) ==
            WalkFrom(pkt, pkt[off], if k == 44 then off + 8 else off + 8 * (pkt[off + 1] as int + 1), steps - 1)
  {
  }

  /** A header that claims more octets than the packet has leaves nothing to filter on. */
  lemma TruncatedHeader(head: seq<byte>, k: byte, tail: seq<byte>, rest: seq<byte>)
    requires |head| == 6 && |tail| == 33
    requires k == 0 || k == 43 || k == 60 || k == 44
    requires |rest| < 2 || |rest| < if k == 44 then 8 else 8 * (rest[1] as int + 1)
    ensures Walk(Base(head, k, tail) + rest) == NoHeader
  {
    BaseOctets(head, k, tail, rest);
    var pkt := Base(head, k, tail) + rest;
    if Walk(pkt).Transport? {
      PrintOfDecompose(pkt);
      assert |rest| >= 2 ==> pkt[41] == pkt[40..][1] == rest[1];
      WalkStaysInside(pkt, pkt[40], if k == 44 then 48 else 40 + 8 * (pkt[41] as int + 1), 7);
      assert false;
    }
  }

  /**
   * The octets of a header of kind k whose successor is next: its second octet is its length, or unused in a Fragment.
   */
  function HeaderOctets(next: byte, second: byte, rest: seq<byte>): seq<byte> {
    [next, second] + rest
  }

  /** Putting one more header in front moves the upper layer by that header's octets, up to seven headers in all. */
  lemma OneMoreHeader(pkt: seq<byte>, k: byte, second: byte, rest: seq<byte>)
    requires Walk(pkt).Transport?
    requires k == 0 || k == 43 || k == 60 || k == 44
    requires |rest| == if k == 44 then 6 else 8 * second + 6
    ensures |pkt| >= 40
    ensures var longer := pkt[..6] + [k] + pkt[7..40] + HeaderOctets(pkt[6], second, rest) + pkt[40..];
            Walk(longer) ==
            if |Decompose(pkt).exts| < 7 then Transport(Walk(pkt).proto, Walk(pkt).offset + 2 + |rest|) else NoHeader
  {
    var h := Extension(k, [second] + rest);
    assert ValidChain([h]);
    assert PrintChain([h], pkt[6]) == [pkt[6]] + ([second] + rest);
    assert HeaderOctets(pkt[6], second, rest) == [pkt[6]] + ([second] + rest);
    WalkOfSplice(pkt, [h]);
  }
}
