/** The two copy loops of pipeUDP in go/engine.go. */
module UdpRelay {
  import opened Addresses
  import opened Bytes
  import opened UdpCodec

  datatype Peer = Peer(ip: IP, port: int)

  /** One ReadFromUDP on the relay socket. */
  datatype Arrival = Datagram(from: Option<Peer>, data: seq<byte>) | ReadFailed

  predicate FromRelay(from: Option<Peer>, relay: Peer) {
    from.Some? && Canonical(from.value.ip) == Canonical(relay.ip) && from.value.port == relay.port
  }

  /** What the loop does with one read; a buffer of mtu + 22 octets loses the rest of a longer datagram. */
  datatype Outcome = Stop | Drop | Deliver(payload: seq<byte>)

  function OutcomeOf(a: Arrival, relay: Peer, mtu: nat): Outcome {
    if a.ReadFailed? then Stop
    else if !FromRelay(a.from, relay) then Drop
    else match Decode(Take(a.data, mtu + 22))
      case Decoded(_, _, payload) => Deliver(payload)
      case Malformed(_) => Drop
  }

  function Outcomes(arrivals: seq<Arrival>, relay: Peer, mtu: nat): (os: seq<Outcome>)
    ensures |os| == |arrivals| && forall i :: 0 <= i < |os| ==> os[i] == OutcomeOf(arrivals[i], relay, mtu)
  {
    seq(|arrivals|, i requires 0 <= i < |arrivals| => OutcomeOf(arrivals[i], relay, mtu))
  }

  function Delivered(os: seq<Outcome>): seq<seq<byte>> {
    if os == [] || os[0] == Stop then []
    else (if os[0].Deliver? then [os[0].payload] else []) + Delivered(os[1..])
  }

  /** The payloads of the arrivals that come from the relay and decode, in order, up to the first failed read. */
  function Payloads(arrivals: seq<Arrival>, relay: Peer, mtu: nat): seq<seq<byte>> {
    Delivered(Outcomes(arrivals, relay, mtu))
  }

  lemma DeliveredStep(os: seq<Outcome>, i: nat)
    requires i < |os|
    ensures Delivered(os[i..]) ==
            match os[i]
            case Stop => []
            case Drop => Delivered(os[i + 1..])
            case Deliver(payload) => [payload] + Delivered(os[i + 1..])
  {
    assert os[i..][1..] == os[i + 1..];
  }

  /** relay -> TUN. The app side accepts `writes` datagrams before a write fails. */
  method RelayToApp(arrivals: seq<Arrival>, relay: Peer, mtu: nat, writes: nat) returns (delivered: seq<seq<byte>>)
    ensures delivered == Take(Payloads(arrivals, relay, mtu), writes)
  {
    ghost var os := Outcomes(arrivals, relay, mtu);
    delivered := [];
    var i := 0;
    assert os[0..] == os;
    while i < |arrivals|
      invariant 0 <= i <= |arrivals| && |delivered| <= writes
      invariant delivered + Delivered(os[i..]) == Delivered(os)
    {
      DeliveredStep(os, i);
      if arrivals[i].ReadFailed? {
        return;
      }
      var payload := Accept(arrivals[i], relay, mtu);
      if payload.Some? {
        NextDelivery(delivered, payload.value, Delivered(os[i + 1..]));
        if |delivered| == writes {
          return;
        }
        delivered := delivered + [payload.value];
      }
      i := i + 1;
    }
  }

  lemma NextDelivery(before: seq<seq<byte>>, x: seq<byte>, after: seq<seq<byte>>)
    ensures (before + [x]) + after == before + ([x] + after)
    ensures Take(before + ([x] + after), |before|) == before
  {
  }

  /** One received datagram: dropped unless it comes from the relay and decodes. */
  method Accept(a: Arrival, relay: Peer, mtu: nat) returns (payload: Option<seq<byte>>)
    requires a.Datagram?
    ensures OutcomeOf(a, relay, mtu) == if payload.Some? then Deliver(payload.value) else Drop
  {
    if !FromRelay(a.from, relay) {
      return None;
    }
    match Decode(Take(a.data, mtu + 22))
    case Malformed(_) => payload := None;
    case Decoded(_, _, p) => payload := Some(p);
  }

  /** TUN -> relay, until a read (None) or a write fails. */
  method AppToRelay(packets: seq<Option<seq<byte>>>, dstIP: IP, dstPort: int, mtu: nat, writes: nat)
    returns (sent: seq<seq<byte>>)
    ensures sent == Take(Requests(packets, dstIP, dstPort, mtu), writes)
  {
    sent := [];
    var i := 0;
    assert packets[0..] == packets;
    while i < |packets|
      invariant 0 <= i <= |packets| && |sent| <= writes
      invariant sent + Requests(packets[i..], dstIP, dstPort, mtu) == Requests(packets, dstIP, dstPort, mtu)
    {
      assert packets[i..][1..] == packets[i + 1..];
      if packets[i] == None {
        return;
      }
      var datagram := EncodeUDPDatagram(dstIP, dstPort, Take(packets[i].value, mtu));
      if |sent| == writes {
        return;
      }
      sent := sent + [datagram];
      i := i + 1;
    }
  }

  function Requests(packets: seq<Option<seq<byte>>>, dstIP: IP, dstPort: int, mtu: nat): seq<seq<byte>> {
    if packets == [] || packets[0] == None then []
    else [Encode(dstIP, dstPort, Take(packets[0].value, mtu))] + Requests(packets[1..], dstIP, dstPort, mtu)
  }

  // ---------- the relay's promises ----------

  lemma {:induction false} DropIsInvisible(before: seq<Outcome>, after: seq<Outcome>)
    ensures Delivered(before + [Drop] + after) == Delivered(before + after)
  {
    if before == [] {
      assert [] + [Drop] + after == [Drop] + after && [] + after == after;
      assert ([Drop] + after)[1..] == after;
    } else {
      assert (before + [Drop] + after)[1..] == before[1..] + [Drop] + after;
      assert (before + after)[1..] == before[1..] + after;
      DropIsInvisible(before[1..], after);
    }
  }

  /** The datagram comes from the relay: a sender is known, with the relay's port and an address of the relay's host. */
  predicate Genuine(from: Option<Peer>, relay: Peer) {
    from.Some? && from.value.port == relay.port && SameHost(from.value.ip, relay.ip)
  }

  lemma GenuineIff(from: Option<Peer>, relay: Peer)
    ensures FromRelay(from, relay) <==> Genuine(from, relay)
  {
    if from.Some? {
      SameCanonicalIff(from.value.ip, relay.ip);
    }
  }

  lemma OutcomesAround(before: seq<Arrival>, a: Arrival, after: seq<Arrival>, relay: Peer, mtu: nat)
    ensures var xs, ys := Outcomes(before, relay, mtu), Outcomes(after, relay, mtu);
            && Outcomes(before + [a] + after, relay, mtu) == xs + [OutcomeOf(a, relay, mtu)] + ys
            && Outcomes(before + after, relay, mtu) == xs + ys
  {
  }

  /** A datagram from any other sender, wherever it arrives, changes nothing the app gets. */
  lemma ForeignDatagramsAreInvisible(before: seq<Arrival>, a: Arrival, after: seq<Arrival>, relay: Peer, mtu: nat)
    requires a.Datagram?
    requires a.from == None || a.from.value.port != relay.port || !SameHost(a.from.value.ip, relay.ip)
    ensures Payloads(before + [a] + after, relay, mtu) == Payloads(before + after, relay, mtu)
  {
    GenuineIff(a.from, relay);
    OutcomesAround(before, a, after, relay, mtu);
    DropIsInvisible(Outcomes(before, relay, mtu), Outcomes(after, relay, mtu));
  }

  /** Nor does one from the relay that does not decode. */
  lemma MalformedDatagramsAreInvisible(before: seq<Arrival>, a: Arrival, after: seq<Arrival>, relay: Peer, mtu: nat)
    requires a.Datagram? && Decode(Take(a.data, mtu + 22)).Malformed?
    ensures Payloads(before + [a] + after, relay, mtu) == Payloads(before + after, relay, mtu)
  {
    OutcomesAround(before, a, after, relay, mtu);
    DropIsInvisible(Outcomes(before, relay, mtu), Outcomes(after, relay, mtu));
  }

  lemma {:induction false} DeliveredInOrder(before: seq<Outcome>, after: seq<Outcome>)
    requires Stop !in before
    ensures Delivered(before + after) == Delivered(before) + Delivered(after)
  {
    if before == [] {
      assert [] + after == after;
    } else {
      assert (before + after)[1..] == before[1..] + after;
      DeliveredInOrder(before[1..], after);
    }
  }

  /** A datagram from the relay that decodes reaches the app in its place, unless reading had failed before. */
  lemma GenuineDatagramsAreDelivered(before: seq<Arrival>, a: Arrival, after: seq<Arrival>, relay: Peer, mtu: nat)
    requires ReadFailed !in before && a.Datagram? && Genuine(a.from, relay)
    requires Decode(Take(a.data, mtu + 22)).Decoded?
    ensures Payloads(before + [a] + after, relay, mtu) ==
            Payloads(before, relay, mtu) + [Decode(Take(a.data, mtu + 22)).payload] + Payloads(after, relay, mtu)
  {
    var xs, ys, o := Outcomes(before, relay, mtu), Outcomes(after, relay, mtu), OutcomeOf(a, relay, mtu);
    GenuineIff(a.from, relay);
    OutcomesAround(before, a, after, relay, mtu);
    assert xs + [o] + ys == xs + ([o] + ys);
    assert ([o] + ys)[1..] == ys;
    DeliveredInOrder(xs, [o] + ys);
  }

  /** Nothing is delivered once a read has failed. */
  lemma NothingAfterFailure(before: seq<Arrival>, after: seq<Arrival>, relay: Peer, mtu: nat)
    requires ReadFailed !in before
    ensures Payloads(before + [ReadFailed] + after, relay, mtu) == Payloads(before, relay, mtu)
  {
    var xs, ys := Outcomes(before, relay, mtu), Outcomes(after, relay, mtu);
    OutcomesAround(before, ReadFailed, after, relay, mtu);
    assert xs + [Stop] + ys == xs + ([Stop] + ys);
    DeliveredInOrder(xs, [Stop] + ys);
  }

  /** What a proxy sends on behalf of remote peers. */
  datatype Reply = Reply(ip: IP, port: int, payload: seq<byte>)

  function Sent(replies: seq<Reply>, relay: Peer): seq<Arrival> {
    if replies == [] then []
    else [Datagram(Some(relay), Encode(replies[0].ip, replies[0].port, replies[0].payload))] + Sent(replies[1..], relay)
  }

  function Bodies(replies: seq<Reply>): seq<seq<byte>> {
    if replies == [] then [] else [replies[0].payload] + Bodies(replies[1..])
  }

  predicate Deliverable(r: Reply, mtu: nat) {
    (|r.ip| == 4 || |r.ip| == 16) && 0 <= r.port < 0x1_0000 && |r.payload| <= mtu
  }

  /** Replies of real peers that fit the MTU reach the app whole and in order. */
  lemma {:induction false} HonestRepliesAreDelivered(replies: seq<Reply>, relay: Peer, mtu: nat)
    requires forall r :: r in replies ==> Deliverable(r, mtu)
    ensures Payloads(Sent(replies, relay), relay, mtu) == Bodies(replies)
  {
    if replies != [] {
      var r := replies[0];
      assert Deliverable(r, mtu);
      DecodeOfEncode(r.ip, r.port, r.payload);
      HonestRepliesAreDelivered(replies[1..], relay, mtu);
      assert Sent(replies, relay)[1..] == Sent(replies[1..], relay);
      assert Outcomes(Sent(replies, relay), relay, mtu)[1..] == Outcomes(Sent(replies[1..], relay), relay, mtu);
    }
  }

  /** The proxy decodes from each request the destination and the app's datagram. */
  lemma {:induction false} RequestsDecode(packets: seq<Option<seq<byte>>>, dstIP: IP, dstPort: int, mtu: nat, i: nat)
    requires (|dstIP| == 4 || |dstIP| == 16) && 0 <= dstPort < 0x1_0000
    requires i < |Requests(packets, dstIP, dstPort, mtu)|
    ensures i < |packets| && packets[i].Some?
    ensures Decode(Requests(packets, dstIP, dstPort, mtu)[i]) ==
            Decoded(Canonical(dstIP), dstPort, Take(packets[i].value, mtu))
  {
    if i == 0 {
      DecodeOfEncode(dstIP, dstPort, Take(packets[0].value, mtu));
    } else {
      RequestsDecode(packets[1..], dstIP, dstPort, mtu, i - 1);
    }
  }

  /** As many requests are made as packets are read before the first failure. */
  lemma {:induction false} EveryPacketIsRequested(
      before: seq<seq<byte>>, packets: seq<Option<seq<byte>>>, after: seq<Option<seq<byte>>>,
      dstIP: IP, dstPort: int, mtu: nat)
    requires |packets| == |before| && forall i :: 0 <= i < |before| ==> packets[i] == Some(before[i])
    ensures |Requests(packets + [None] + after, dstIP, dstPort, mtu)| == |before|
    ensures |Requests(packets, dstIP, dstPort, mtu)| == |before|
  {
    if packets == [] {
      assert [] + [None] + after == [None] + after;
    } else {
      assert (packets + [None] + after)[1..] == packets[1..] + [None] + after;
      EveryPacketIsRequested(before[1..], packets[1..], after, dstIP, dstPort, mtu);
    }
  }
}
