/** The filtering part of tunReadLoop in go/engine.go. */
module TunReadLoop {
  import opened Bytes
  import opened Ipv6Walker
  import opened PacketFilter
  import opened IcmpReject

  const QUIC_PORT: word := 443

  datatype Family = IPv4 | IPv6
  datatype Verdict = Skipped | EchoBlocked | QuicRejected(reply: Option<seq<byte>>) | Passed(family: Family)

  /** What happens to one non-empty packet. */
  function Decide(allowICMP: bool, blockQuic: bool, pkt: seq<byte>): Verdict
    requires pkt != []
  {
    if pkt[0] / 0x10 == 4 then
      if !allowICMP && |pkt| > 9 && pkt[9] == ICMP && ShouldBlockICMP(pkt) then EchoBlocked
      else if blockQuic && UdpDstPortIPv4(pkt, QUIC_PORT) then
        QuicRejected(if AnswerableV4(pkt) then Some(ReplyV4(pkt)) else None)
      else Passed(IPv4)
    else if pkt[0] / 0x10 == 6 then
      if !allowICMP && EchoIPv6(pkt) then EchoBlocked
      else if blockQuic && UdpDstPortIPv6(pkt, QUIC_PORT) then
        QuicRejected(if AnswerableV6(pkt) then Some(ReplyV6(pkt)) else None)
      else Passed(IPv6)
    else Skipped
  }

  /** What the TUN device or the stop channel presents at each turn of the loop. */
  datatype Turn = Stopped | ReadFailed(running: bool) | Arrived(pkt: seq<byte>)

  /** The packets read before the loop ends. */
  function Live(turns: seq<Turn>): (pkts: seq<seq<byte>>)
    ensures forall p | p in pkts :: p != []
  {
    if turns == [] || !turns[0].Arrived? then []
    else (if turns[0].pkt == [] then [] else [turns[0].pkt]) + Live(turns[1..])
  }

  /** The device fails while the engine is still marked running. */
  predicate FailsLive(turns: seq<Turn>) {
    turns != [] && (turns[0] == ReadFailed(true) || (turns[0].Arrived? && FailsLive(turns[1..])))
  }

  type Packets = ps: seq<seq<byte>> | forall p | p in ps :: p != []

  /** Packets injected into the stack, packets written to the TUN device, QUIC packets counted. */
  datatype Effect = Effect(injected: seq<(Family, seq<byte>)>, written: seq<seq<byte>>, rejects: nat) {
    function Then(e: Effect): Effect {
      Effect(injected + e.injected, written + e.written, rejects + e.rejects)
    }
  }

  const NOTHING := Effect([], [], 0)

  /** The effect of a verdict, field by field. */
  function EffectFor(v: Verdict, pkt: seq<byte>): Effect {
    match v
    case Passed(f) => Effect([(f, pkt)], [], 0)
    case QuicRejected(Some(r)) => Effect([], [r], 1)
    case QuicRejected(None) => Effect([], [], 1)
    case _ => NOTHING
  }

  function EffectOf(allowICMP: bool, blockQuic: bool, pkt: seq<byte>): Effect
    requires pkt != []
  {
    EffectFor(Decide(allowICMP, blockQuic, pkt), pkt)
  }

  function Effects(allowICMP: bool, blockQuic: bool, pkts: Packets): Effect {
    if pkts == [] then NOTHING
    else EffectOf(allowICMP, blockQuic, pkts[0]).Then(Effects(allowICMP, blockQuic, pkts[1..]))
  }

  class TunReader {
    const allowICMP: bool
    const blockQuic: bool
    var quicRejects: nat
    var injected: seq<(Family, seq<byte>)>  // endpoint.InjectInbound calls
    var written: seq<seq<byte>>             // tunFile.Write calls
    var selfStops: nat                      // go e.Stop() launches

    function Done(): Effect
      reads this
    {
      Effect(injected, written, quicRejects)
    }

    constructor (allowICMP: bool, blockQuic: bool)
      ensures this.allowICMP == allowICMP && this.blockQuic == blockQuic
      ensures quicRejects == 0 && injected == [] && written == [] && selfStops == 0
    {
      this.allowICMP, this.blockQuic := allowICMP, blockQuic;
      quicRejects, injected, written, selfStops := 0, [], [], 0;
    }

    method Handle(pkt: seq<byte>)
      requires pkt != []
      modifies this
      ensures selfStops == old(selfStops)
      ensures Done() == old(Done()).Then(EffectOf(allowICMP, blockQuic, pkt))
    {
      var version := pkt[0] / 0x10;
      if version == 4 {
        if !allowICMP && |pkt| > 9 && pkt[9] == ICMP {
          if ShouldBlockICMP(pkt) {
            return;
          }
        }
        if blockQuic && UdpDstPortIPv4(pkt, QUIC_PORT) {
          quicRejects := quicRejects + 1;
          var resp := BuildICMPv4PortUnreachable(pkt);
          if resp != null {
            written := written + [resp[..]];
          }
          return;
        }
        injected := injected + [(IPv4, pkt)];
      } else if version == 6 {
        if !allowICMP {
          var proto, off, ok := Ipv6TransportHeader(pkt);
          if ok && proto == ICMPV6 && ShouldBlockICMPv6(pkt, off) {
            return;
          }
        }
        if blockQuic && UdpDstPortIPv6(pkt, QUIC_PORT) {
          quicRejects := quicRejects + 1;
          var resp := BuildICMPv6PortUnreachable(pkt);
          if resp != null {
            written := written + [resp[..]];
          }
          return;
        }
        injected := injected + [(IPv6, pkt)];
      }
    }

    /** One packet of the turns to come, skipped when empty. */
    method TakePacket(pkt: seq<byte>, ghost turns: seq<Turn>, ghost i: nat)
      requires i < |turns| && turns[i] == Arrived(pkt)
      modifies this
      ensures selfStops == old(selfStops)
      ensures After(Done(), allowICMP, blockQuic, turns[i + 1..]) ==
              After(old(Done()), allowICMP, blockQuic, turns[i..])
    {
      TurnSplit(turns, i, allowICMP, blockQuic, Done());
      if pkt != [] {
        Handle(pkt);
      }
    }

    /** Over all turns, what is passed, written and counted, and whether the engine is stopped from here. */
    method Loop(turns: seq<Turn>)
      modifies this
      ensures injected == old(injected) + PassedOf(allowICMP, blockQuic, Live(turns))
      ensures written == old(written) + RepliesOf(allowICMP, blockQuic, Live(turns))
      ensures quicRejects == old(quicRejects) + RejectsOf(allowICMP, blockQuic, Live(turns))
      ensures selfStops == old(selfStops) + if FailsLive(turns) then 1 else 0
    {
      EffectsOnFields(allowICMP, blockQuic, Live(turns));
      RunTurns(turns);
    }

    method RunTurns(turns: seq<Turn>)
      modifies this
      ensures Done() == After(old(Done()), allowICMP, blockQuic, turns)
      ensures selfStops == old(selfStops) + if FailsLive(turns) then 1 else 0
    {
      var i := 0;
      ghost var goal := After(Done(), allowICMP, blockQuic, turns);
      assert turns[0..] == turns;
      while i < |turns|
        invariant 0 <= i <= |turns| && selfStops == old(selfStops)
        invariant FailsLive(turns[i..]) <==> FailsLive(turns)
        invariant After(Done(), allowICMP, blockQuic, turns[i..]) == goal
      {
        FailureAhead(turns, i);
        match turns[i]
        case Stopped =>
          LastTurn(turns, i, allowICMP, blockQuic, Done());
          return;
        case ReadFailed(running) =>
          LastTurn(turns, i, allowICMP, blockQuic, Done());
          if running {
            selfStops := selfStops + 1;
          }
          return;
        case Arrived(pkt) =>
          TakePacket(pkt, turns, i);
          i := i + 1;
      }
      NothingMore(allowICMP, blockQuic, Done());
    }
  }

  /** The effect so far followed by that of the turns to come. */
  function After(before: Effect, a: bool, q: bool, turns: seq<Turn>): Effect {
    before.Then(Effects(a, q, Live(turns)))
  }

  /** The packets that are passed, in order, each with its IP version. */
  function PassedOf(a: bool, q: bool, pkts: Packets): seq<(Family, seq<byte>)> {
    if pkts == [] then []
    else
      (match Decide(a, q, pkts[0])
       case Passed(family) => [(family, pkts[0])]
       case _ => []) + PassedOf(a, q, pkts[1..])
  }

  /** The replies to the packets that are rejected and answered, in order. */
  function RepliesOf(a: bool, q: bool, pkts: Packets): seq<seq<byte>> {
    if pkts == [] then []
    else
      (match Decide(a, q, pkts[0])
       case QuicRejected(Some(reply)) => [reply]
       case _ => []) + RepliesOf(a, q, pkts[1..])
  }

  /** How many packets are rejected, answered or not. */
  function RejectsOf(a: bool, q: bool, pkts: Packets): nat {
    if pkts == [] then 0 else Bit(Decide(a, q, pkts[0]).QuicRejected?) + RejectsOf(a, q, pkts[1..])
  }

  lemma FieldsOfCons(a: bool, q: bool, p: seq<byte>, rest: Packets, v: Verdict)
    requires p != [] && v == Decide(a, q, p)
    ensures var now := EffectFor(v, p);
            && PassedOf(a, q, [p] + rest) == now.injected + PassedOf(a, q, rest)
            && RepliesOf(a, q, [p] + rest) == now.written + RepliesOf(a, q, rest)
            && RejectsOf(a, q, [p] + rest) == now.rejects + RejectsOf(a, q, rest)
  {
    assert ([p] + rest)[1..] == rest;
  }

  lemma {:induction false} EffectsOnFields(a: bool, q: bool, pkts: Packets)
    ensures Effects(a, q, pkts) == Effect(PassedOf(a, q, pkts), RepliesOf(a, q, pkts), RejectsOf(a, q, pkts))
  {
    if pkts != [] {
      var p, rest := pkts[0], pkts[1..];
      assert pkts == [p] + rest;
      EffectsOnFields(a, q, rest);
      FieldsOfCons(a, q, p, rest, Decide(a, q, p));
    }
  }

  /** Nothing is handled after the first stop or failure. */
  lemma {:induction false} LiveStops(turns: seq<Turn>, end: Turn, rest: seq<Turn>)
    requires (forall t :: t in turns ==> t.Arrived?) && !end.Arrived?
    ensures Live(turns + [end] + rest) == Live(turns)
  {
    if turns == [] {
      assert [] + [end] + rest == [end] + rest;
    } else {
      assert (turns + [end] + rest)[1..] == turns[1..] + [end] + rest;
      LiveStops(turns[1..], end, rest);
    }
  }

  /** Until then every packet is handled but the empty ones. */
  lemma {:induction false} LiveGrows(turns: seq<Turn>, p: seq<byte>)
    requires forall t :: t in turns ==> t.Arrived?
    ensures Live(turns + [Arrived(p)]) == Live(turns) + if p == [] then [] else [p]
  {
    if turns == [] {
      assert [] + [Arrived(p)] == [Arrived(p)];
    } else {
      assert (turns + [Arrived(p)])[1..] == turns[1..] + [Arrived(p)];
      LiveGrows(turns[1..], p);
    }
  }

  lemma NothingMore(a: bool, q: bool, before: Effect)
    ensures After(before, a, q, []) == before && !FailsLive([])
  {
  }

  lemma FailureAhead(turns: seq<Turn>, i: nat)
    requires i < |turns|
    ensures FailsLive(turns[i..]) <==>
            turns[i] == ReadFailed(true) || (turns[i].Arrived? && FailsLive(turns[i + 1..]))
  {
    assert turns[i..][1..] == turns[i + 1..];
  }

  lemma LastTurn(turns: seq<Turn>, i: nat, a: bool, q: bool, before: Effect)
    requires i < |turns| && !turns[i].Arrived?
    ensures After(before, a, q, turns[i..]) == before
  {
  }

  lemma TurnSplit(turns: seq<Turn>, i: nat, a: bool, q: bool, before: Effect)
    requires i < |turns| && turns[i].Arrived?
    ensures var pkt := turns[i].pkt;
            After(before, a, q, turns[i..]) ==
            After(if pkt == [] then before else before.Then(EffectOf(a, q, pkt)), a, q, turns[i + 1..])
  {
    assert turns[i..][1..] == turns[i + 1..];
    if turns[i].pkt == [] {
      assert Live(turns[i..]) == Live(turns[i + 1..]);
    } else {
      LiveSplit(turns[i..], a, q, before);
    }
  }

  lemma ThenIsAssociative(x: Effect, y: Effect, z: Effect)
    ensures x.Then(y.Then(z)) == x.Then(y).Then(z)
  {
  }

  lemma EffectsOfCons(a: bool, q: bool, p: seq<byte>, rest: Packets)
    requires p != []
    ensures Effects(a, q, [p] + rest) == EffectOf(a, q, p).Then(Effects(a, q, rest))
  {
    assert ([p] + rest)[1..] == rest;
  }

  lemma LiveSplit(turns: seq<Turn>, a: bool, q: bool, before: Effect)
    requires turns != [] && turns[0].Arrived? && turns[0].pkt != []
    ensures before.Then(Effects(a, q, Live(turns))) ==
            before.Then(EffectOf(a, q, turns[0].pkt)).Then(Effects(a, q, Live(turns[1..])))
  {
    EffectsOfCons(a, q, turns[0].pkt, Live(turns[1..]));
    ThenIsAssociative(before, EffectOf(a, q, turns[0].pkt), Effects(a, q, Live(turns[1..])));
  }

  // ---------- the loop's promises ----------

  /** A reply fed back into the loop is passed on, whatever the settings. */
  lemma RepliesAreNotFiltered(allowICMP: bool, blockQuic: bool, pkt: seq<byte>)
    requires pkt != [] && Decide(allowICMP, blockQuic, pkt).QuicRejected?
    requires Decide(allowICMP, blockQuic, pkt).reply.Some?
    ensures var reply := Decide(allowICMP, blockQuic, pkt).reply.value;
            reply != [] && forall a, q :: Decide(a, q, reply) == Passed(if pkt[0] / 0x10 == 4 then IPv4 else IPv6)
  {
    if pkt[0] / 0x10 == 4 {
      ReplyV4IsFaithful(pkt, QUIC_PORT);
    } else {
      ReplyV6IsFaithful(pkt, QUIC_PORT);
    }
  }

  /** An IPv6 packet that the sender assembled: exactly when it is stopped, and exactly when it is answered. */
  lemma DecideOfPrint(allowICMP: bool, blockQuic: bool, p: Packet)
    requires ValidPacket(p) && p.head[0] / 0x10 == 6
    ensures var short, v := |p.exts| <= 7, Decide(allowICMP, blockQuic, Print(p));
            var echo := p.proto == 58 && MissingOrEcho(p.body);
            var quic := p.proto == 17 && |p.body| >= 4 && p.body[2] as int * 0x100 + p.body[3] == 443;
            (v == EchoBlocked <==> !allowICMP && short && echo) &&
            (v.QuicRejected? <==> blockQuic && short && quic) &&
            (v.QuicRejected? ==> (v.reply.Some? <==> p.exts == [] && |p.body| >= 8)) &&
            (v == EchoBlocked || v.QuicRejected? || v == Passed(IPv6))
  {
    EchoOfPrint(p);
    UdpPortOfPrint(p, QUIC_PORT);
    PrintLayout(p);
    assert Print(p)[0] == Print(p)[..6][0];
    if p.exts != [] {
      StartsWithExtension(p.exts, p.proto);
    }
  }

  /** An Echo Request behind n Hop-by-Hop headers of eight octets each. */
  function EchoBehind(n: nat): (p: Packet)
    ensures ValidPacket(p)
  {
    var h := Extension(0, Zeros(7));
    Packet([0x60, 0, 0, 0, 0, 0], Zeros(33), seq(n, _ => h), 58, [128])
  }

  /** With echoes blocked, this one is blocked up to seven such headers and let through behind eight or more. */
  lemma EchoPassesBehindEight(n: nat, blockQuic: bool)
    ensures Decide(false, blockQuic, Print(EchoBehind(n))) == if n <= 7 then EchoBlocked else Passed(IPv6)
  {
    DecideOfPrint(false, blockQuic, EchoBehind(n));
  }

  /**
   * Only kinds 0, 43, 44 and 60 are extension headers to the walk. Behind any other protocol number, the Authentication
   * Header (51) among them, nothing is looked at: the packet passes whatever it carries.
   */
  lemma OtherProtocolsPass(allowICMP: bool, blockQuic: bool, p: Packet)
    requires ValidPacket(p) && p.head[0] / 0x10 == 6 && p.proto != 58 && p.proto != 17
    ensures Decide(allowICMP, blockQuic, Print(p)) == Passed(IPv6)
  {
    DecideOfPrint(allowICMP, blockQuic, p);
  }
}
