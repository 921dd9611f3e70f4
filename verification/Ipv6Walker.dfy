/** The IPv6 extension-header walk of go/icmp_reject.go and a printer it inverts (section 4 of RFC 8200). */
module Ipv6Walker {
  import opened Bytes

  const MAX_STEPS := 8

  datatype Parsed = NoHeader | Transport(proto: byte, offset: nat)

  /** Hop-by-Hop, Routing, Destination Options: length given in the header. */
  predicate SizedKind(kind: byte) {
    kind == 0 || kind == 43 || kind == 60
  }

  predicate ExtensionKind(kind: byte) {
    SizedKind(kind) || kind == 44
  }

  /** 59 is No Next Header; everything else outside the extension kinds is an upper layer. */
  predicate UpperLayer(proto: byte) {
    !ExtensionKind(proto) && proto != 59
  }

  /** Hdr Ext Len counts 8-octet units after the first 8 octets. */
  function HeaderSize(hdrExtLen: byte): nat {
    (hdrExtLen as int + 1) * 8
  }

  // ---------- the walk ----------

  function WalkFrom(pkt: seq<byte>, next: byte, off: nat, steps: nat): Parsed
    decreases pkt, steps
  {
    if steps == 0 || next == 59 then NoHeader
    else if SizedKind(next) then
      if |pkt| < off + 2 then NoHeader
      else WalkFrom(pkt, pkt[off], off + HeaderSize(pkt[off + 1]), steps - 1)
    else if next == 44 then
      if |pkt| < off + 8 then NoHeader
      else WalkFrom(pkt, pkt[off], off + 8, steps - 1)
    else if off > |pkt| then NoHeader
    else Transport(next, off)
  }

  function Walk(pkt: seq<byte>): Parsed {
    if |pkt| < 40 then NoHeader else WalkFrom(pkt, pkt[6], 40, MAX_STEPS)
  }

  method Ipv6TransportHeader(pkt: seq<byte>) returns (proto: byte, offset: nat, ok: bool)
    ensures ok <==> Walk(pkt).Transport?
    ensures ok ==> Walk(pkt) == Transport(proto, offset)
    ensures !ok ==> proto == 0 && offset == 0
  {
    if |pkt| < 40 {
      return 0, 0, false;
    }
    var next, off := pkt[6], 40;
    for i := 0 to MAX_STEPS
      invariant off >= 40
      invariant Walk(pkt) == WalkFrom(pkt, next, off, MAX_STEPS - i)
    {
      if SizedKind(next) {
        if |pkt| < off + 2 {
          return 0, 0, false;
        }
        var hdrLen := HeaderSize(pkt[off + 1]);
        next := pkt[off];
        off := off + hdrLen;
      } else if next == 44 {
        if |pkt| < off + 8 {
          return 0, 0, false;
        }
        next := pkt[off];
        off := off + 8;
      } else if next == 59 {
        return 0, 0, false;
      } else {
        if off > |pkt| {
          return 0, 0, false;
        }
        return next, off, true;
      }
    }
    return 0, 0, false;
  }

  // ---------- packets as the sender assembles them ----------

  /** An extension header: its type, and its octets after the leading Next Header octet. */
  datatype Extension = Extension(kind: byte, body: seq<byte>)

  predicate ValidExtension(h: Extension) {
    if h.kind == 44 then |h.body| == 7
    else SizedKind(h.kind) && |h.body| >= 1 && |h.body| + 1 == HeaderSize(h.body[0])
  }

  predicate ValidChain(hs: seq<Extension>) {
    forall h | h in hs :: ValidExtension(h)
  }

  function FirstKind(hs: seq<Extension>, proto: byte): byte {
    if hs == [] then proto else hs[0].kind
  }

  function Size(h: Extension): nat {
    |h.body| + 1
  }

  function ChainSize(hs: seq<Extension>): nat {
    if hs == [] then 0 else Size(hs[0]) + ChainSize(hs[1..])
  }

  /** A header starts with the type of what follows it. */
  function PrintExtension(h: Extension, next: byte): (r: seq<byte>)
    ensures |r| == Size(h)
  {
    [next] + h.body
  }

  function PrintChain(hs: seq<Extension>, proto: byte): (r: seq<byte>)
    ensures |r| == ChainSize(hs)
  {
    if hs == [] then [] else PrintExtension(hs[0], FirstKind(hs[1..], proto)) + PrintChain(hs[1..], proto)
  }

  /** head: octets 0 to 5 of the base header; tail: octets 7 to 39. */
  datatype Packet = Packet(head: seq<byte>, tail: seq<byte>, exts: seq<Extension>, proto: byte, body: seq<byte>)

  predicate ValidPacket(p: Packet) {
    |p.head| == 6 && |p.tail| == 33 && ValidChain(p.exts) && UpperLayer(p.proto)
  }

  function Print(p: Packet): seq<byte> {
    p.head + [FirstKind(p.exts, p.proto)] + p.tail + PrintChain(p.exts, p.proto) + p.body
  }

  // ---------- the walk inverts the printer ----------

  lemma WalkOneHeader(pkt: seq<byte>, off: nat, h: Extension, steps: nat)
    requires ValidExtension(h) && off + Size(h) <= |pkt| && pkt[off + 1] == h.body[0] && steps > 0
    ensures WalkFrom(pkt, h.kind, off, steps) == WalkFrom(pkt, pkt[off], off + Size(h), steps - 1)
  {
  }

  /** Where the printed header at off ends, and what its first two octets and the octets behind it are. */
  lemma HeaderAt(pkt: seq<byte>, off: nat, hs: seq<Extension>, proto: byte, body: seq<byte>)
    requires hs != [] && ValidExtension(hs[0])
    requires off <= |pkt| && pkt[off..] == PrintChain(hs, proto) + body
    ensures var next := off + Size(hs[0]);
            && next <= |pkt| && pkt[next..] == PrintChain(hs[1..], proto) + body
            && pkt[off] == FirstKind(hs[1..], proto) && pkt[off + 1] == hs[0].body[0]
  {
    HeadOfChain(hs, proto, body, pkt[off..]);
    TailOfTail(pkt, off, hs[0].body);
  }

  lemma WalkEndsChain(pkt: seq<byte>, off: nat, proto: byte, steps: nat)
    requires off <= |pkt| && UpperLayer(proto)
    ensures WalkFrom(pkt, proto, off, steps) == if 0 < steps then Transport(proto, off) else NoHeader
  {
  }

  lemma WalkPastHeader(pkt: seq<byte>, off: nat, hs: seq<Extension>, proto: byte, steps: nat)
    requires hs != [] && ValidExtension(hs[0]) && off + Size(hs[0]) <= |pkt| && steps > 0
    requires pkt[off] == FirstKind(hs[1..], proto) && pkt[off + 1] == hs[0].body[0]
    ensures WalkFrom(pkt, FirstKind(hs, proto), off, steps) ==
            WalkFrom(pkt, FirstKind(hs[1..], proto), off + Size(hs[0]), steps - 1)
  {
    WalkOneHeader(pkt, off, hs[0], steps);
  }

  /** The headers hs follow one another from off on, each naming its successor. */
  predicate HeadersAt(pkt: seq<byte>, off: nat, hs: seq<Extension>, proto: byte)
    decreases |hs|
  {
    && off <= |pkt|
    && (hs != [] ==>
          && ValidExtension(hs[0]) && off + Size(hs[0]) <= |pkt|
          && pkt[off] == FirstKind(hs[1..], proto) && pkt[off + 1] == hs[0].body[0]
          && HeadersAt(pkt, off + Size(hs[0]), hs[1..], proto))
  }

  lemma {:induction false} PrintedHeadersAt(pkt: seq<byte>, off: nat, hs: seq<Extension>, proto: byte, body: seq<byte>)
    requires off <= |pkt| && pkt[off..] == PrintChain(hs, proto) + body && ValidChain(hs)
    ensures HeadersAt(pkt, off, hs, proto)
    decreases |hs|
  {
    if hs != [] {
      assert ValidExtension(hs[0]);
      HeaderAt(pkt, off, hs, proto, body);
      PrintedHeadersAt(pkt, off + Size(hs[0]), hs[1..], proto, body);
    }
  }

  lemma {:induction false} WalkReadsChain(pkt: seq<byte>, off: nat, hs: seq<Extension>, proto: byte, steps: nat)
    requires HeadersAt(pkt, off, hs, proto) && UpperLayer(proto)
    ensures WalkFrom(pkt, FirstKind(hs, proto), off, steps) ==
            if |hs| < steps then Transport(proto, off + ChainSize(hs)) else NoHeader
    decreases |hs|
  {
    if hs == [] {
      WalkEndsChain(pkt, off, proto, steps);
    } else if steps > 0 {
      WalkPastHeader(pkt, off, hs, proto, steps);
      WalkReadsChain(pkt, off + Size(hs[0]), hs[1..], proto, steps - 1);
    }
  }

  lemma TailOfTail(pkt: seq<byte>, off: nat, h: seq<byte>)
    requires off <= |pkt| && 1 <= |h| < |pkt[off..]| && pkt[off..][1..|h| + 1] == h
    ensures off + |h| + 1 <= |pkt| && pkt[off..][|h| + 1..] == pkt[off + (|h| + 1)..]
    ensures pkt[off] == pkt[off..][0] && pkt[off + 1] == h[0]
  {
    assert pkt[off..][1] == pkt[off..][1..|h| + 1][0];
  }

  lemma PrintLayout(p: Packet)
    requires ValidPacket(p)
    ensures |Print(p)| == 40 + ChainSize(p.exts) + |p.body|
    ensures Print(p)[..6] == p.head && Print(p)[6] == FirstKind(p.exts, p.proto) && Print(p)[7..40] == p.tail
    ensures Print(p)[40..] == PrintChain(p.exts, p.proto) + p.body
    ensures Print(p)[40 + ChainSize(p.exts)..] == p.body
  {
  }

  /** Up to seven extension headers are walked to the upper layer; a longer chain is given up on. */
  lemma WalkOfPrint(p: Packet)
    requires ValidPacket(p)
    ensures Walk(Print(p)) == if |p.exts| <= 7 then Transport(p.proto, 40 + ChainSize(p.exts)) else NoHeader
  {
    PrintLayout(p);
    PrintedHeadersAt(Print(p), 40, p.exts, p.proto, p.body);
    WalkReadsChain(Print(p), 40, p.exts, p.proto, MAX_STEPS);
  }

  // ---------- and every accepted packet was printed ----------

  function ChainFrom(pkt: seq<byte>, next: byte, off: nat, steps: nat): (hs: seq<Extension>)
    requires WalkFrom(pkt, next, off, steps).Transport?
    ensures |hs| < steps
    decreases pkt, steps
  {
    if SizedKind(next) || next == 44 then
      var size := if next == 44 then 8 else HeaderSize(pkt[off + 1]);
      WalkStaysInside(pkt, pkt[off], off + size, steps - 1);
      [Extension(next, pkt[off + 1..off + size])] + ChainFrom(pkt, pkt[off], off + size, steps - 1)
    else []
  }

  lemma {:induction false} WalkStaysInside(pkt: seq<byte>, next: byte, off: nat, steps: nat)
    requires WalkFrom(pkt, next, off, steps).Transport?
    ensures off <= WalkFrom(pkt, next, off, steps).offset <= |pkt|
    ensures UpperLayer(WalkFrom(pkt, next, off, steps).proto)
    decreases pkt, steps
  {
    if SizedKind(next) {
      WalkStaysInside(pkt, pkt[off], off + HeaderSize(pkt[off + 1]), steps - 1);
    } else if next == 44 {
      WalkStaysInside(pkt, pkt[off], off + 8, steps - 1);
    }
  }

  /** One header of an accepted packet: the walk and the chain go on behind it. */
  lemma ChainFromHeader(pkt: seq<byte>, next: byte, off: nat, steps: nat) returns (size: nat)
    requires WalkFrom(pkt, next, off, steps).Transport? && ExtensionKind(next)
    ensures 2 <= size && off + size <= |pkt| && steps > 0
    ensures size == if next == 44 then 8 else HeaderSize(pkt[off + 1])
    ensures WalkFrom(pkt, pkt[off], off + size, steps - 1) == WalkFrom(pkt, next, off, steps)
    ensures ChainFrom(pkt, next, off, steps) ==
            [Extension(next, pkt[off + 1..off + size])] + ChainFrom(pkt, pkt[off], off + size, steps - 1)
  {
    size := if next == 44 then 8 else HeaderSize(pkt[off + 1]);
    WalkStaysInside(pkt, pkt[off], off + size, steps - 1);
  }

  lemma {:induction false} ChainFromPrints(pkt: seq<byte>, next: byte, off: nat, steps: nat)
    requires WalkFrom(pkt, next, off, steps).Transport?
    ensures var hs, t := ChainFrom(pkt, next, off, steps), WalkFrom(pkt, next, off, steps);
            ValidChain(hs) && FirstKind(hs, t.proto) == next && t.offset == off + ChainSize(hs) <= |pkt| &&
            pkt[off..t.offset] == PrintChain(hs, t.proto)
    decreases pkt, steps
  {
    WalkStaysInside(pkt, next, off, steps);
    if ExtensionKind(next) {
      var t := WalkFrom(pkt, next, off, steps);
      var size := ChainFromHeader(pkt, next, off, steps);
      var rest := ChainFrom(pkt, pkt[off], off + size, steps - 1);
      ChainFromPrints(pkt, pkt[off], off + size, steps - 1);
      PrintsOneMore(pkt, next, off, size, rest, t.proto, t.offset);
    }
  }

  lemma PrintsOneMore(pkt: seq<byte>, next: byte, off: nat, size: nat, rest: seq<Extension>, proto: byte, end: nat)
    requires ExtensionKind(next) && 2 <= size && off + size <= end <= |pkt|
    requires size == if next == 44 then 8 else HeaderSize(pkt[off + 1])
    requires ValidChain(rest) && FirstKind(rest, proto) == pkt[off]
    requires end == off + size + ChainSize(rest) && pkt[off + size..end] == PrintChain(rest, proto)
    ensures var hs := [Extension(next, pkt[off + 1..off + size])] + rest;
            ValidChain(hs) && FirstKind(hs, proto) == next && end == off + ChainSize(hs) &&
            pkt[off..end] == PrintChain(hs, proto)
  {
    var h := Extension(next, pkt[off + 1..off + size]);
    assert ([h] + rest)[1..] == rest;
    SplitHeader(pkt, off, size, end);
  }

  lemma SplitHeader(pkt: seq<byte>, off: nat, size: nat, end: nat)
    requires 1 <= size && off + size <= end <= |pkt|
    ensures pkt[off..end] == [pkt[off]] + pkt[off + 1..off + size] + pkt[off + size..end]
  {
  }

  function Decompose(pkt: seq<byte>): Packet
    requires Walk(pkt).Transport?
  {
    var t := Walk(pkt);
    WalkStaysInside(pkt, pkt[6], 40, MAX_STEPS);
    Packet(pkt[..6], pkt[7..40], ChainFrom(pkt, pkt[6], 40, MAX_STEPS), t.proto, pkt[t.offset..])
  }

  lemma PrintOfDecompose(pkt: seq<byte>)
    requires Walk(pkt).Transport?
    ensures var p := Decompose(pkt);
            ValidPacket(p) && |p.exts| < MAX_STEPS && Print(p) == pkt &&
            Walk(pkt) == Transport(p.proto, 40 + ChainSize(p.exts)) && Walk(pkt).offset <= |pkt|
  {
    var t := Walk(pkt);
    ChainFromPrints(pkt, pkt[6], 40, MAX_STEPS);
    WalkStaysInside(pkt, pkt[6], 40, MAX_STEPS);
    assert pkt == pkt[..6] + [pkt[6]] + pkt[7..40] + pkt[40..t.offset] + pkt[t.offset..];
  }

  lemma {:induction false} ChainSizeIsEightfold(hs: seq<Extension>)
    requires ValidChain(hs)
    ensures ChainSize(hs) % 8 == 0
  {
    if hs != [] {
      assert ValidExtension(hs[0]);
      ChainSizeIsEightfold(hs[1..]);
    }
  }

  ghost predicate PrintedFrom(pkt: seq<byte>, p: Packet) {
    ValidPacket(p) && |p.exts| <= 7 && Print(p) == pkt
  }

  /** A packet is accepted if and only if it is printed from a valid packet with at most seven extension headers. */
  lemma AcceptedIffPrinted(pkt: seq<byte>)
    ensures Walk(pkt).Transport? <==> exists p: Packet :: PrintedFrom(pkt, p)
  {
    if Walk(pkt).Transport? {
      PrintOfDecompose(pkt);
      assert PrintedFrom(pkt, Decompose(pkt));
    } else {
      forall p: Packet | PrintedFrom(pkt, p) ensures false {
        WalkOfPrint(p);
      }
    }
  }

  lemma AcceptedOffset(pkt: seq<byte>)
    requires Walk(pkt).Transport?
    ensures 40 <= Walk(pkt).offset <= |pkt| && Walk(pkt).offset % 8 == 0
  {
    PrintOfDecompose(pkt);
    ChainSizeIsEightfold(Decompose(pkt).exts);
  }

  lemma {:induction false} ChainIsUnique(
      hs: seq<Extension>, gs: seq<Extension>, proto: byte, a: seq<byte>, b: seq<byte>)
    requires ValidChain(hs) && ValidChain(gs) && UpperLayer(proto)
    requires FirstKind(hs, proto) == FirstKind(gs, proto)
    requires PrintChain(hs, proto) + a == PrintChain(gs, proto) + b
    ensures hs == gs && a == b
  {
    if hs == [] && gs == [] {
      assert PrintChain(hs, proto) + a == a && PrintChain(gs, proto) + b == b;
    } else if gs == [] {
      StartsWithExtension(hs, proto);
    } else if hs == [] {
      StartsWithExtension(gs, proto);
    } else {
      SameHead(hs, gs, proto, a, b, PrintChain(hs, proto) + a);
      ChainIsUnique(hs[1..], gs[1..], proto, a, b);
      assert hs == [hs[0]] + hs[1..] && gs == [gs[0]] + gs[1..];
    }
  }

  lemma StartsWithExtension(hs: seq<Extension>, proto: byte)
    requires hs != [] && ValidChain(hs)
    ensures ExtensionKind(FirstKind(hs, proto))
  {
    assert ValidExtension(hs[0]);
  }

  lemma HeadOfChain(hs: seq<Extension>, proto: byte, a: seq<byte>, x: seq<byte>)
    requires hs != [] && ValidExtension(hs[0])
    requires x == PrintChain(hs, proto) + a
    ensures var n := Size(hs[0]);
            |x| >= n >= 2 && x[0] == FirstKind(hs[1..], proto) && x[1..n] == hs[0].body &&
            x[n..] == PrintChain(hs[1..], proto) + a
  {
    var e := PrintExtension(hs[0], FirstKind(hs[1..], proto));
    CutPrefix(x, e, PrintChain(hs[1..], proto), a);
    assert x[..|e|][1..] == x[1..|e|];
  }

  lemma CutPrefix(x: seq<byte>, e: seq<byte>, c: seq<byte>, a: seq<byte>)
    requires x == e + c + a
    ensures |x| >= |e| && x[..|e|] == e && x[|e|..] == c + a
  {
    assert x == e + (c + a);
  }

  lemma SameHead(hs: seq<Extension>, gs: seq<Extension>, proto: byte, a: seq<byte>, b: seq<byte>, x: seq<byte>)
    requires hs != [] && gs != [] && ValidExtension(hs[0]) && ValidExtension(gs[0]) && hs[0].kind == gs[0].kind
    requires x == PrintChain(hs, proto) + a
    requires x == PrintChain(gs, proto) + b
    ensures hs[0] == gs[0] && FirstKind(hs[1..], proto) == FirstKind(gs[1..], proto)
    ensures PrintChain(hs[1..], proto) + a == PrintChain(gs[1..], proto) + b
  {
    HeadOfChain(hs, proto, a, x);
    HeadOfChain(gs, proto, b, x);
    assert x[1] == hs[0].body[0] == gs[0].body[0];
  }

  /** The printed form determines the packet. */
  lemma PrintIsInjective(p: Packet, q: Packet)
    requires ValidPacket(p) && ValidPacket(q) && |p.exts| < MAX_STEPS && |q.exts| < MAX_STEPS
    requires Print(p) == Print(q)
    ensures p == q
  {
    WalkOfPrint(p);
    WalkOfPrint(q);
    PrintLayout(p);
    PrintLayout(q);
    ChainIsUnique(p.exts, q.exts, p.proto, p.body, q.body);
  }

  // ---------- stability ----------

  lemma {:induction false} WalkIgnoresTrailing(pkt: seq<byte>, extra: seq<byte>, next: byte, off: nat, steps: nat)
    requires WalkFrom(pkt, next, off, steps).Transport?
    ensures WalkFrom(pkt + extra, next, off, steps) == WalkFrom(pkt, next, off, steps)
    decreases pkt, steps
  {
    if SizedKind(next) {
      WalkIgnoresTrailing(pkt, extra, pkt[off], off + HeaderSize(pkt[off + 1]), steps - 1);
    } else if next == 44 {
      WalkIgnoresTrailing(pkt, extra, pkt[off], off + 8, steps - 1);
    }
  }

  lemma TrailingBytesIrrelevant(pkt: seq<byte>, extra: seq<byte>)
    requires Walk(pkt).Transport?
    ensures Walk(pkt + extra) == Walk(pkt)
  {
    WalkIgnoresTrailing(pkt, extra, pkt[6], 40, MAX_STEPS);
  }

  /** Extension headers inserted right after the base header. */
  function Splice(pkt: seq<byte>, hs: seq<Extension>): seq<byte>
    requires |pkt| >= 40
  {
    pkt[..6] + [FirstKind(hs, pkt[6])] + pkt[7..40] + PrintChain(hs, pkt[6]) + pkt[40..]
  }

  lemma {:induction false} PrintChainConcat(hs: seq<Extension>, gs: seq<Extension>, proto: byte)
    ensures PrintChain(hs + gs, proto) == PrintChain(hs, FirstKind(gs, proto)) + PrintChain(gs, proto)
    ensures FirstKind(hs + gs, proto) == FirstKind(hs, FirstKind(gs, proto))
    ensures ChainSize(hs + gs) == ChainSize(hs) + ChainSize(gs)
  {
    if hs == [] {
      assert hs + gs == gs;
    } else {
      assert (hs + gs)[1..] == hs[1..] + gs;
      PrintChainConcat(hs[1..], gs, proto);
    }
  }

  lemma SpliceIsPrinted(p: Packet, hs: seq<Extension>)
    requires ValidPacket(p) && ValidChain(hs)
    ensures ValidPacket(p.(exts := hs + p.exts))
    ensures Splice(Print(p), hs) == Print(p.(exts := hs + p.exts))
  {
    PrintLayout(p);
    PrintChainConcat(hs, p.exts, p.proto);
  }

  /**
   * Inserting headers moves the upper layer by their size, up to seven headers in all; beyond that the walk gives up.
   */
  lemma WalkOfSplice(pkt: seq<byte>, hs: seq<Extension>)
    requires Walk(pkt).Transport? && ValidChain(hs)
    ensures var t := Walk(pkt);
            Walk(Splice(pkt, hs)) ==
            if |hs| + |Decompose(pkt).exts| <= 7 then Transport(t.proto, t.offset + ChainSize(hs)) else NoHeader
    ensures Walk(pkt).offset <= |pkt|
    ensures |Splice(pkt, hs)| == |pkt| + ChainSize(hs)
    ensures Splice(pkt, hs)[Walk(pkt).offset + ChainSize(hs)..] == pkt[Walk(pkt).offset..]
  {
    var p := Decompose(pkt);
    PrintOfDecompose(pkt);
    SpliceIsPrinted(p, hs);
    PrintChainConcat(hs, p.exts, p.proto);
    WalkOfPrint(p.(exts := hs + p.exts));
    PrintLayout(p);
    PrintLayout(p.(exts := hs + p.exts));
  }
}
