/** The server's side of the SOCKS5 exchange, and why the client stops exactly at the first payload octet. */
module Socks5Framing {
  import opened Addresses
  import opened Bytes
  import opened UdpCodec
  import opened Socks5

  // ---------- what a server sends ----------

  predicate ValidBound(b: Bound) {
    match b.host
    case HostIP(ip) => |ip| == 4 || |ip| == 16
    case HostName(name) => |name| < 0x100
  }

  function PrintHost(h: Host): seq<byte>
    requires ValidBound(Bound(h, 0))
  {
    match h
    case HostIP(ip) => [if |ip| == 4 then 1 else 4] + ip
    case HostName(name) => [3, |name|] + name
  }

  function PrintReply(rsv: byte, b: Bound): seq<byte>
    requires ValidBound(b)
  {
    [5, 0, rsv] + PrintHost(b.host) + Octets(b.port)
  }

  function PrintHandshake(m: byte): seq<byte> {
    [5, m] + if m == 2 then [1, 0] else []
  }

  function PrintServer(m: byte, rsv: byte, b: Bound): seq<byte>
    requires ValidBound(b)
  {
    PrintHandshake(m) + PrintReply(rsv, b)
  }

  // ---------- the client consumes exactly that ----------

  lemma PortOfPrint(h: Host, port: word, rest: seq<byte>)
    ensures ParsePort(h, Octets(port) + rest) == Got(Bound(h, port), rest)
  {
  }

  lemma FixedOfPrint(ip: IP, port: word, rest: seq<byte>)
    ensures ParseFixed(ip + Octets(port) + rest, |ip|) == Got(Bound(HostIP(ip), port), rest)
  {
    var s := ip + Octets(port) + rest;
    assert s[..|ip|] == ip && s[|ip|..] == Octets(port) + rest;
    PortOfPrint(HostIP(ip), port, rest);
  }

  lemma NameOfPrint(name: seq<byte>, port: word, rest: seq<byte>)
    requires |name| < 0x100
    ensures ParseName([|name|] + name + Octets(port) + rest) == Got(Bound(HostName(name), port), rest)
  {
    var s := [|name| as byte] + name + Octets(port) + rest;
    assert s[1..1 + |name|] == name && s[1 + |name|..] == Octets(port) + rest;
    PortOfPrint(HostName(name), port, rest);
  }

  lemma ReplyOfPrint(rsv: byte, b: Bound, rest: seq<byte>)
    requires ValidBound(b)
    ensures ParseReply(PrintReply(rsv, b) + rest) == Got(b, rest)
  {
    var s := PrintReply(rsv, b) + rest;
    assert s[0] == 5 && s[1] == 0;
    match b.host
    case HostIP(ip) =>
      assert s[3] == (if |ip| == 4 then 1 else 4) && s[4..] == ip + Octets(b.port) + rest;
      FixedOfPrint(ip, b.port, rest);
    case HostName(name) =>
      assert s[3] == 3 && s[4..] == [|name|] + name + Octets(b.port) + rest;
      NameOfPrint(name, b.port, rest);
  }

  lemma PortWasPrinted(h: Host, s: seq<byte>)
    requires ParsePort(h, s).Got?
    ensures ParsePort(h, s).value.host == h && s == Octets(ParsePort(h, s).value.port) + ParsePort(h, s).rest
  {
    OctetsOfWord(s[0], s[1]);
  }

  lemma FixedWasPrinted(s: seq<byte>, n: nat)
    requires ParseFixed(s, n).Got?
    ensures var r := ParseFixed(s, n);
            r.value.host.HostIP? && |r.value.host.ip| == n && s == r.value.host.ip + Octets(r.value.port) + r.rest
  {
    PortWasPrinted(HostIP(s[..n]), s[n..]);
    assert s == s[..n] + s[n..];
  }

  lemma NameWasPrinted(s: seq<byte>)
    requires ParseName(s).Got?
    ensures var r := ParseName(s);
            r.value.host.HostName? && |r.value.host.name| < 0x100 &&
            s == [|r.value.host.name|] + r.value.host.name + Octets(r.value.port) + r.rest
  {
    var n := 1 + s[0] as int;
    PortWasPrinted(HostName(s[1..n]), s[n..]);
    assert s == [s[0]] + s[1..n] + s[n..];
  }

  lemma ReplyHead(s: seq<byte>, b: Bound, rest: seq<byte>)
    requires |s| >= 4 && s[0] == 5 && s[1] == 0 && ValidBound(b)
    requires [s[3]] + s[4..] == PrintHost(b.host) + Octets(b.port) + rest
    ensures s == PrintReply(s[2], b) + rest
  {
    assert s == [5, 0, s[2]] + ([s[3]] + s[4..]);
  }

  lemma ReplyWasPrinted(s: seq<byte>)
    requires ParseReply(s).Got?
    ensures var r := ParseReply(s);
            ValidBound(r.value) && s == PrintReply(s[2], r.value) + r.rest
  {
    var r := ParseReply(s);
    if s[3] == 3 {
      NameWasPrinted(s[4..]);
    } else {
      FixedWasPrinted(s[4..], if s[3] == 1 then 4 else 16);
    }
    ReplyHead(s, r.value, r.rest);
  }

  lemma HandshakeOfPrint(m: byte, rest: seq<byte>, writable: nat)
    requires (m == 0 || m == 2) && writable >= if m == 2 then 2 else 1
    ensures HandshakeEnds(PrintHandshake(m) + rest, writable) == Got(m, rest)
  {
    var s := PrintHandshake(m) + rest;
    assert s[0] == 5 && s[1] == m && s[2..] == (if m == 2 then [1, 0] else []) + rest;
    if m == 2 {
      assert s[2..][2..] == rest;
    } else {
      assert s[2..] == rest;
    }
  }

  lemma HandshakeWasPrinted(s: seq<byte>, writable: nat)
    requires HandshakeEnds(s, writable).Got?
    ensures var r := HandshakeEnds(s, writable); (r.value == 0 || r.value == 2) && s == PrintHandshake(r.value) + r.rest
  {
    var m := ParseMethod(s);
    assert s == [5, s[1]] + s[2..];
    if s[1] == 2 {
      assert s[2..] == [1, 0] + s[2..][2..];
    }
  }

  /** Method m, reply (rsv, b), then payload. */
  ghost predicate ServerStream(inbox: seq<byte>, m: byte, rsv: byte, b: Bound, payload: seq<byte>) {
    (m == 0 || m == 2) && ValidBound(b) && inbox == PrintServer(m, rsv, b) + payload
  }

  /** The exchange writes a greeting and a request, and the credentials in between if the server asks for them. */
  function WritesNeeded(m: byte): nat {
    if m == 2 then 3 else 2
  }

  /** A well-formed server stream leaves the client at its first payload octet. */
  lemma ClientStopsAtPayload(inbox: seq<byte>, m: byte, rsv: byte, b: Bound, payload: seq<byte>, writable: nat)
    requires ServerStream(inbox, m, rsv, b, payload) && writable >= WritesNeeded(m)
    ensures ExchangeSucceeds(inbox, writable)
    ensures HandshakeEnds(inbox, writable).value == m
    ensures ParseReply(HandshakeEnds(inbox, writable).rest) == Got(b, payload)
  {
    assert inbox == PrintHandshake(m) + (PrintReply(rsv, b) + payload);
    HandshakeOfPrint(m, PrintReply(rsv, b) + payload, writable);
    ReplyOfPrint(rsv, b, payload);
  }

  /** What a successful exchange has read was a well-formed server stream. */
  lemma SuccessWasPrinted(inbox: seq<byte>, writable: nat)
    returns (m: byte, rsv: byte, b: Bound, payload: seq<byte>)
    requires ExchangeSucceeds(inbox, writable)
    ensures ServerStream(inbox, m, rsv, b, payload) && writable >= WritesNeeded(m)
  {
    var h := HandshakeEnds(inbox, writable);
    var r := ParseReply(h.rest);
    HandshakeWasPrinted(inbox, writable);
    ReplyWasPrinted(h.rest);
    m, rsv, b, payload := h.value, h.rest[2], r.value, r.rest;
    ThreeParts(inbox, PrintHandshake(m), PrintReply(rsv, b), payload, h.rest);
  }

  lemma ThreeParts(s: seq<byte>, x: seq<byte>, y: seq<byte>, z: seq<byte>, yz: seq<byte>)
    requires s == x + yz && yz == y + z
    ensures s == x + y + z
  {
  }

  /** The exchange succeeds on well-formed server streams for which the writes suffice, and on no others. */
  lemma SucceedsIffWellFormed(inbox: seq<byte>, writable: nat)
    ensures ExchangeSucceeds(inbox, writable) <==>
            exists m, rsv, b, payload :: ServerStream(inbox, m, rsv, b, payload) && writable >= WritesNeeded(m)
  {
    if ExchangeSucceeds(inbox, writable) {
      var m, rsv, b, payload := SuccessWasPrinted(inbox, writable);
    }
    forall m, rsv, b, payload | ServerStream(inbox, m, rsv, b, payload) && writable >= WritesNeeded(m)
      ensures ExchangeSucceeds(inbox, writable)
    {
      ClientStopsAtPayload(inbox, m, rsv, b, payload, writable);
    }
  }

  // ---------- what a server reads ----------

  datatype Read<T> = Refused | Read(value: T, rest: seq<byte>)
  datatype Credentials = Credentials(user: seq<byte>, pass: seq<byte>)
  datatype Target = Target(cmd: byte, ip: IP, port: word)

  function ReadCounted(s: seq<byte>): Read<seq<byte>> {
    if |s| < 1 || |s| < 1 + s[0] as int then Refused else Read(s[1..1 + s[0] as int], s[1 + s[0] as int..])
  }

  function ReadGreeting(s: seq<byte>): Read<seq<byte>> {
    if |s| < 1 || s[0] != 5 then Refused else ReadCounted(s[1..])
  }

  function ReadCredentials(s: seq<byte>): Read<Credentials> {
    if |s| < 1 || s[0] != 1 then Refused
    else match ReadCounted(s[1..])
      case Refused => Refused
      case Read(user, rest) =>
        match ReadCounted(rest)
        case Refused => Refused
        case Read(pass, rest') => Read(Credentials(user, pass), rest')
  }

  function ReadRequest(s: seq<byte>): Read<Target> {
    if |s| < 4 || s[0] != 5 || s[2] != 0 || (s[3] != 1 && s[3] != 4) then Refused
    else
      var n := if s[3] == 1 then 4 else 16;
      if |s| < 6 + n then Refused
      else Read(Target(s[1], s[4..4 + n], Word(s[4 + n], s[5 + n])), s[6 + n..])
  }

  lemma CountedOfPrint(x: seq<byte>, rest: seq<byte>)
    ensures ReadCounted([|x| % 0x100] + x + rest) == Read(x, rest) <==> |x| < 0x100
    ensures ReadCounted([|x| % 0x100] + x + rest).Read? &&
            |ReadCounted([|x| % 0x100] + x + rest).value| == |x| % 0x100
  {
    var s := [(|x| % 0x100) as byte] + x + rest;
    if |x| < 0x100 {
      assert s[1..1 + |x|] == x && s[1 + |x|..] == rest;
    }
  }

  /** The credentials arrive intact exactly when both fit their one-octet length fields. */
  lemma CredentialsArriveIff(user: seq<byte>, pass: seq<byte>, rest: seq<byte>)
    ensures ReadCredentials(AuthRequest(user, pass) + rest) == Read(Credentials(user, pass), rest) <==>
            |user| < 0x100 && |pass| < 0x100
  {
    var tail := [(|pass| % 0x100) as byte] + pass + rest;
    var s := AuthRequest(user, pass) + rest;
    assert s[1..] == [(|user| % 0x100) as byte] + user + tail;
    CountedOfPrint(user, tail);
    CountedOfPrint(pass, rest);
  }

  lemma GreetingArrives(user: seq<byte>, rest: seq<byte>)
    ensures ReadGreeting(Greeting(user) + rest) == Read(if user != [] then [0, 2] else [0], rest)
  {
    var ms: seq<byte> := if user != [] then [0, 2] else [0];
    var s := Greeting(user) + rest;
    assert s[1..] == [|ms| as byte] + ms + rest;
    CountedOfPrint(ms, rest);
  }

  lemma RequestLayout(cmd: byte, atyp: byte, addr: seq<byte>, hi: byte, lo: byte, rest: seq<byte>)
    requires (atyp == 1 && |addr| == 4) || (atyp == 4 && |addr| == 16)
    ensures ReadRequest([5, cmd, 0, atyp] + addr + [hi, lo] + rest) == Read(Target(cmd, addr, Word(hi, lo)), rest)
  {
    var s := [5, cmd, 0, atyp] + addr + [hi, lo] + rest;
    var n := |addr|;
    assert s[4..4 + n] == addr && s[4 + n] == hi && s[5 + n] == lo && s[6 + n..] == rest;
  }

  lemma ConnectArrives(ip: IP, port: word, rest: seq<byte>)
    requires |ip| == 4 || |ip| == 16
    ensures ReadRequest(ConnectRequest(ip, port) + rest) == Read(Target(1, Canonical(ip), port), rest)
  {
    var (atyp, addr) := AddressBlock(ip);
    RequestLayout(1, atyp, addr, port / 0x100 % 0x100, port % 0x100, rest);
  }

  /** Everything the client writes, read back by the server: methods, credentials, destination, and nothing more. */
  lemma ServerReadsClient(user: seq<byte>, pass: seq<byte>, m: byte, ip: IP, port: word)
    requires |user| < 0x100 && |pass| < 0x100 && (|ip| == 4 || |ip| == 16)
    ensures var g := ReadGreeting(HandshakeSent(user, pass, m) + ConnectRequest(ip, port));
            g.Read? && g.value == (if user != [] then [0, 2] else [0]) &&
            if m == 2 then
              var c := ReadCredentials(g.rest);
              c.Read? && c.value == Credentials(user, pass) &&
              ReadRequest(c.rest) == Read(Target(1, Canonical(ip), port), [])
            else ReadRequest(g.rest) == Read(Target(1, Canonical(ip), port), [])
  {
    var request := ConnectRequest(ip, port);
    var auth := if m == 2 then AuthRequest(user, pass) else [];
    assert HandshakeSent(user, pass, m) + request == Greeting(user) + (auth + request);
    GreetingArrives(user, auth + request);
    CredentialsArriveIff(user, pass, request);
    assert request + [] == request;
    assert [] + request == request;
    ConnectArrives(ip, port, []);
  }

  lemma AssociateArrives(boundPort: word)
    ensures ReadRequest(AssociateRequest(boundPort)) == Read(Target(3, [127, 0, 0, 1], boundPort), [])
  {
    RequestLayout(3, 1, [127, 0, 0, 1], boundPort / 0x100 % 0x100, boundPort % 0x100, []);
    assert AssociateRequest(boundPort) ==
           [5, 3, 0, 1] + [127, 0, 0, 1] + [boundPort / 0x100 % 0x100, boundPort % 0x100] + [];
  }

  // ---------- why a server's octets are refused ----------

  /** The method selection: version 5 and method 0 or 2 are accepted; what is wrong otherwise. */
  lemma MethodRefusals(s: seq<byte>)
    ensures |s| < 2 <==> ParseMethod(s) == Bad(ShortRead)
    ensures |s| >= 2 && s[0] != 5 ==> ParseMethod(s) == Bad(BadVersion(s[0]))
    ensures |s| >= 2 && s[0] == 5 && s[1] == 0xFF ==> ParseMethod(s) == Bad(MethodsRejected)
    ensures |s| >= 2 && s[0] == 5 && s[1] != 0 && s[1] != 2 && s[1] != 0xFF ==>
              ParseMethod(s) == Bad(UnsupportedMethod(s[1]))
    ensures |s| >= 2 && s[0] == 5 && (s[1] == 0 || s[1] == 2) ==> ParseMethod(s) == Got(s[1], s[2..])
  {
  }

  /** The sub-negotiation has version 1, and any status but 0 is a failure. */
  lemma AuthRefusals(s: seq<byte>)
    ensures |s| < 2 <==> ParseAuth(s) == Bad(ShortRead)
    ensures |s| >= 2 && s[0] != 1 ==> ParseAuth(s) == Bad(BadAuthVersion(s[0]))
    ensures |s| >= 2 && s[0] == 1 && s[1] != 0 ==> ParseAuth(s) == Bad(AuthFailed(s[1]))
    ensures |s| >= 2 && s[0] == 1 && s[1] == 0 ==> ParseAuth(s) == Got((), s[2..])
  {
  }

  /** A reply has version 5, and any code but 0 or any unknown address type is refused as such. */
  lemma ReplyRefusals(s: seq<byte>)
    requires |s| >= 4
    ensures s[0] != 5 ==> ParseReply(s) == Bad(BadVersion(s[0]))
    ensures s[0] == 5 && s[1] != 0 ==> ParseReply(s) == Bad(ErrorReply(s[1]))
    ensures s[0] == 5 && s[1] == 0 && s[3] != 1 && s[3] != 3 && s[3] != 4 ==>
              ParseReply(s) == Bad(UnsupportedBindType(s[3]))
    ensures s[0] == 5 && s[1] == 0 && (s[3] == 1 || s[3] == 3 || s[3] == 4) ==>
              ParseReply(s).Got? || ParseReply(s) == Bad(ShortRead)
  {
  }
}
