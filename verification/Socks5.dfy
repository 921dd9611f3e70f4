/** The SOCKS5 client of go/socks5.go (sections 3 to 6 of RFC 1928, section 2 of RFC 1929) over a byte stream. */
module Socks5 {
  import opened Addresses
  import opened Bytes
  import opened UdpCodec

  // ---------- what the code does to a stream ----------

  datatype Error =
    | WriteFailed
    | ShortRead
    | BadVersion(version: byte)
    | MethodsRejected
    | UnsupportedMethod(m: byte)
    | BadAuthVersion(version: byte)
    | AuthFailed(status: byte)
    | InvalidDestination
    | ErrorReply(rep: byte)
    | UnsupportedBindType(atyp: byte)

  /** What a successful read leaves: the value and the octets not consumed. */
  datatype Got<T> = Bad(error: Error) | Got(value: T, rest: seq<byte>)

  function Greeting(user: seq<byte>): seq<byte> {
    if user != [] then [5, 2, 0, 2] else [5, 1, 0]
  }

  function AuthRequest(user: seq<byte>, pass: seq<byte>): seq<byte> {
    [1, |user| % 0x100] + user + [|pass| % 0x100] + pass
  }

  function ConnectRequest(ip: IP, port: int): seq<byte> {
    var (atyp, addr) := AddressBlock(ip);
    [5, 1, 0, atyp] + addr + Octets(PortWord(port))
  }

  /** UDP ASSOCIATE from 127.0.0.1 and the port bound locally. */
  function AssociateRequest(boundPort: int): seq<byte> {
    [5, 3, 0, 1, 127, 0, 0, 1] + Octets(PortWord(boundPort))
  }

  /** The method octet the server picks, or why the reply is refused. */
  function ParseMethod(s: seq<byte>): Got<byte> {
    if |s| < 2 then Bad(ShortRead)
    else if s[0] != 5 then Bad(BadVersion(s[0]))
    else if s[1] == 0 || s[1] == 2 then Got(s[1], s[2..])
    else if s[1] == 0xFF then Bad(MethodsRejected)
    else Bad(UnsupportedMethod(s[1]))
  }

  function ParseAuth(s: seq<byte>): Got<()> {
    if |s| < 2 then Bad(ShortRead)
    else if s[0] != 1 then Bad(BadAuthVersion(s[0]))
    else if s[1] != 0 then Bad(AuthFailed(s[1]))
    else Got((), s[2..])
  }

  datatype Host = HostIP(ip: IP) | HostName(name: seq<byte>)
  datatype Bound = Bound(host: Host, port: word)

  function ParsePort(host: Host, s: seq<byte>): Got<Bound> {
    if |s| < 2 then Bad(ShortRead) else Got(Bound(host, Word(s[0], s[1])), s[2..])
  }

  function ParseFixed(s: seq<byte>, n: nat): Got<Bound> {
    if |s| < n then Bad(ShortRead) else ParsePort(HostIP(s[..n]), s[n..])
  }

  function ParseName(s: seq<byte>): Got<Bound> {
    if |s| < 1 || |s| < 1 + s[0] as int then Bad(ShortRead)
    else ParsePort(HostName(s[1..1 + s[0] as int]), s[1 + s[0] as int..])
  }

  function ParseReply(s: seq<byte>): Got<Bound> {
    if |s| < 4 then Bad(ShortRead)
    else if s[0] != 5 then Bad(BadVersion(s[0]))
    else if s[1] != 0 then Bad(ErrorReply(s[1]))
    else if s[3] == 1 then ParseFixed(s[4..], 4)
    else if s[3] == 4 then ParseFixed(s[4..], 16)
    else if s[3] == 3 then ParseName(s[4..])
    else Bad(UnsupportedBindType(s[3]))
  }

  /** The method agreed on and the octets left after the server's side of the handshake. */
  function HandshakeEnds(inbox: seq<byte>, writable: nat): Got<byte> {
    if writable == 0 then Bad(WriteFailed)
    else match ParseMethod(inbox)
      case Bad(e) => Bad(e)
      case Got(v, rest) =>
        if v == 0 then Got(0, rest)
        else if writable == 1 then Bad(WriteFailed)
        else match ParseAuth(rest)
          case Bad(e) => Bad(e)
          case Got(_, rest') => Got(2, rest')
  }

  function HandshakeSent(user: seq<byte>, pass: seq<byte>, m: byte): seq<byte> {
    Greeting(user) + if m == 2 then AuthRequest(user, pass) else []
  }

  /** Whether the handshake and one request-reply exchange after it go through. */
  predicate ExchangeSucceeds(inbox: seq<byte>, writable: nat) {
    var m := HandshakeEnds(inbox, writable);
    m.Got? && writable > (if m.value == 2 then 2 else 1) && ParseReply(m.rest).Got?
  }

  // ---------- the connection ----------

  class Conn {
    var inbox: seq<byte>  // octets the peer sends before it goes silent for good
    var sent: seq<byte>   // octets written so far
    var writable: nat     // writes that succeed before one fails

    constructor (inbox: seq<byte>, writable: nat)
      ensures this.inbox == inbox && this.sent == [] && this.writable == writable
    {
      this.inbox, this.sent, this.writable := inbox, [], writable;
    }

    /** net.Conn.Read into n octets: any non-empty chunk, possibly with the error that ends the stream. */
    method Read(n: nat) returns (data: seq<byte>, err: bool)
      requires n > 0
      modifies this`inbox
      ensures data + inbox == old(inbox) && |data| <= n
      ensures !err ==> data != []
      ensures err ==> inbox == []
    {
      if inbox == [] {
        return [], true;
      }
      var k :| 1 <= k <= n && k <= |inbox|;
      data, inbox := inbox[..k], inbox[k..];
      err := *;
      if inbox != [] {
        err := false;
      }
    }

    /** io.ReadFull. */
    method ReadFull(n: nat) returns (data: seq<byte>, ok: bool)
      modifies this`inbox
      ensures ok <==> |old(inbox)| >= n
      ensures ok ==> data == old(inbox)[..n] && inbox == old(inbox)[n..]
    {
      data := [];
      var err := false;
      while |data| < n && !err
        invariant |data| <= n && data + inbox == old(inbox)
        invariant err ==> inbox == []
        decreases |inbox|, !err
      {
        var chunk;
        chunk, err := Read(n - |data|);
        data := data + chunk;
      }
      ok := |data| >= n;
    }

    /** net.Conn.Write: all of data, or some of it and an error. */
    method Write(data: seq<byte>) returns (ok: bool)
      modifies this`sent, this`writable
      ensures ok <==> old(writable) > 0
      ensures ok ==> sent == old(sent) + data && writable == old(writable) - 1
      ensures !ok ==> old(sent) <= sent <= old(sent) + data && writable == old(writable)
    {
      ok := writable > 0;
      if ok {
        sent, writable := sent + data, writable - 1;
      } else {
        var k :| 0 <= k <= |data|;
        sent := sent + data[..k];
      }
    }
  }

  /** Part of a first message, or all of it and part of a second, is part of the two. */
  lemma SentSoFar(before: seq<byte>, first: seq<byte>, second: seq<byte>, sent: seq<byte>)
    ensures before <= sent <= before + first || before + first <= sent <= before + first + second ==>
              before <= sent <= before + (first + second)
    ensures before + (first + second) == before + first + second
  {
    assert before + (first + second) == before + first + second;
  }

  // ---------- the client ----------

  class Client {
    const username: seq<byte>
    const password: seq<byte>

    constructor (username: seq<byte>, password: seq<byte>)
      ensures this.username == username && this.password == password
    {
      this.username, this.password := username, password;
    }

    method ReadMethod(conn: Conn) returns (r: Got<byte>)
      modifies conn`inbox
      ensures r == ParseMethod(old(conn.inbox))
      ensures r.Got? ==> conn.inbox == r.rest
    {
      var resp, ok := conn.ReadFull(2);
      if !ok {
        return Bad(ShortRead);
      }
      if resp[0] != 5 {
        return Bad(BadVersion(resp[0]));
      }
      if resp[1] == 0 || resp[1] == 2 {
        return Got(resp[1], conn.inbox);
      }
      r := if resp[1] == 0xFF then Bad(MethodsRejected) else Bad(UnsupportedMethod(resp[1]));
    }

    method AuthUserPass(conn: Conn) returns (err: Option<Error>)
      modifies conn
      ensures old(conn.writable) == 0 ==> err == Some(WriteFailed)
      ensures old(conn.sent) <= conn.sent <= old(conn.sent) + AuthRequest(username, password)
      ensures old(conn.writable) > 0 ==>
                conn.sent == old(conn.sent) + AuthRequest(username, password) &&
                conn.writable == old(conn.writable) - 1 &&
                match ParseAuth(old(conn.inbox))
                case Bad(e) => err == Some(e)
                case Got(_, rest) => err == None && conn.inbox == rest
    {
      var ok := conn.Write(AuthRequest(username, password));
      if !ok {
        return Some(WriteFailed);
      }
      var resp;
      resp, ok := conn.ReadFull(2);
      if !ok {
        return Some(ShortRead);
      }
      if resp[0] != 1 {
        return Some(BadAuthVersion(resp[0]));
      }
      if resp[1] != 0 {
        return Some(AuthFailed(resp[1]));
      }
      err := None;
    }

    method Handshake(conn: Conn) returns (err: Option<Error>)
      modifies conn
      ensures err == None <==> HandshakeEnds(old(conn.inbox), old(conn.writable)).Got?
      ensures err.Some? ==>
                HandshakeEnds(old(conn.inbox), old(conn.writable)) == Bad(err.value) &&
                old(conn.sent) <= conn.sent <= old(conn.sent) + HandshakeSent(username, password, 2)
      ensures err == None ==>
                var r := HandshakeEnds(old(conn.inbox), old(conn.writable));
                conn.inbox == r.rest && conn.sent == old(conn.sent) + HandshakeSent(username, password, r.value) &&
                conn.writable == old(conn.writable) - (if r.value == 2 then 2 else 1)
    {
      var ok := conn.Write(Greeting(username));
      SentSoFar(old(conn.sent), Greeting(username), AuthRequest(username, password), conn.sent);
      if !ok {
        return Some(WriteFailed);
      }
      var m := ReadMethod(conn);
      match m
      case Bad(e) => err := Some(e);
      case Got(v, _) =>
        if v == 0 {
          err := None;
        } else {
          err := AuthUserPass(conn);
          SentSoFar(old(conn.sent), Greeting(username), AuthRequest(username, password), conn.sent);
        }
    }

    method ReadSocksAddress(conn: Conn) returns (r: Got<Bound>)
      modifies conn`inbox
      ensures r == ParseReply(old(conn.inbox))
      ensures r.Got? ==> conn.inbox == r.rest
    {
      var hdr, ok := conn.ReadFull(4);
      if !ok {
        return Bad(ShortRead);
      }
      if hdr[0] != 5 {
        return Bad(BadVersion(hdr[0]));
      }
      if hdr[1] != 0 {
        return Bad(ErrorReply(hdr[1]));
      }
      if hdr[3] == 1 {
        r := ReadFixed(conn, 4);
      } else if hdr[3] == 4 {
        r := ReadFixed(conn, 16);
      } else if hdr[3] == 3 {
        r := ReadName(conn);
      } else {
        r := Bad(UnsupportedBindType(hdr[3]));
      }
    }

    method ReadFixed(conn: Conn, n: nat) returns (r: Got<Bound>)
      modifies conn`inbox
      ensures r == ParseFixed(old(conn.inbox), n)
      ensures r.Got? ==> conn.inbox == r.rest
    {
      var addr, ok := conn.ReadFull(n);
      if !ok {
        return Bad(ShortRead);
      }
      r := ReadPort(conn, HostIP(addr));
    }

    method ReadName(conn: Conn) returns (r: Got<Bound>)
      modifies conn`inbox
      ensures r == ParseName(old(conn.inbox))
      ensures r.Got? ==> conn.inbox == r.rest
    {
      var lenBuf, ok := conn.ReadFull(1);
      if !ok {
        return Bad(ShortRead);
      }
      var name;
      name, ok := conn.ReadFull(lenBuf[0]);
      if !ok {
        return Bad(ShortRead);
      }
      ghost var was := old(conn.inbox);
      assert was[1..][..lenBuf[0]] == was[1..1 + lenBuf[0] as int];
      r := ReadPort(conn, HostName(name));
    }

    method ReadPort(conn: Conn, host: Host) returns (r: Got<Bound>)
      modifies conn`inbox
      ensures r == ParsePort(host, old(conn.inbox))
      ensures r.Got? ==> conn.inbox == r.rest
    {
      var portBuf, ok := conn.ReadFull(2);
      r := if ok then Got(Bound(host, Word(portBuf[0], portBuf[1])), conn.inbox) else Bad(ShortRead);
    }

    /** dst is the parsed destination, None when the text is not an address. */
    method SendConnect(conn: Conn, dst: Option<IP>, dstPort: int) returns (err: Option<Error>)
      modifies conn
      ensures dst == None ==>
                err == Some(InvalidDestination) && conn.inbox == old(conn.inbox) && conn.sent == old(conn.sent)
      ensures dst.Some? && old(conn.writable) == 0 ==> err == Some(WriteFailed)
      ensures dst.Some? && old(conn.writable) > 0 ==>
                conn.sent == old(conn.sent) + ConnectRequest(dst.value, dstPort) &&
                match ParseReply(old(conn.inbox))
                case Bad(e) => err == Some(e)
                case Got(_, rest) => err == None && conn.inbox == rest
    {
      if dst == None {
        return Some(InvalidDestination);
      }
      var ok := conn.Write(ConnectRequest(dst.value, dstPort));
      if !ok {
        return Some(WriteFailed);
      }
      var r := ReadSocksAddress(conn);
      err := if r.Bad? then Some(r.error) else None;
    }

    /** The exchange of DialTCP on an established connection. */
    method DialTCP(conn: Conn, dst: Option<IP>, dstPort: int) returns (err: Option<Error>)
      modifies conn
      ensures err == None <==> dst.Some? && ExchangeSucceeds(old(conn.inbox), old(conn.writable))
      ensures var m := HandshakeEnds(old(conn.inbox), old(conn.writable));
              (m.Bad? ==>
                 err == Some(m.error) &&
                 old(conn.sent) <= conn.sent <= old(conn.sent) + HandshakeSent(username, password, 2)) &&
              (m.Got? && dst == None ==>
                 err == Some(InvalidDestination) &&
                 conn.sent == old(conn.sent) + HandshakeSent(username, password, m.value))
      ensures err == None ==>
                var m := HandshakeEnds(old(conn.inbox), old(conn.writable));
                conn.inbox == ParseReply(m.rest).rest &&
                conn.sent == old(conn.sent) + HandshakeSent(username, password, m.value) +
                             ConnectRequest(dst.value, dstPort)
    {
      err := Handshake(conn);
      if err == None {
        err := SendConnect(conn, dst, dstPort);
      }
    }

    /** The exchange of UDPAssociate on an established connection. */
    method UDPAssociate(conn: Conn, boundPort: int) returns (r: Got<Bound>)
      modifies conn
      ensures r.Got? <==> ExchangeSucceeds(old(conn.inbox), old(conn.writable))
      ensures HandshakeEnds(old(conn.inbox), old(conn.writable)).Bad? ==>
                r.Bad? && r.error == HandshakeEnds(old(conn.inbox), old(conn.writable)).error &&
                old(conn.sent) <= conn.sent <= old(conn.sent) + HandshakeSent(username, password, 2)
      ensures r.Got? ==>
                var m := HandshakeEnds(old(conn.inbox), old(conn.writable));
                r == ParseReply(m.rest) && conn.inbox == r.rest &&
                conn.sent == old(conn.sent) + HandshakeSent(username, password, m.value) + AssociateRequest(boundPort)
    {
      var err := Handshake(conn);
      if err.Some? {
        return Bad(err.value);
      }
      var ok := conn.Write(AssociateRequest(boundPort));
      if !ok {
        return Bad(WriteFailed);
      }
      r := ReadSocksAddress(conn);
    }
  }
}
