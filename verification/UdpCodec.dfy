/** The SOCKS5 UDP datagram codec of go/socks5.go (section 7 of RFC 1928). */
module UdpCodec {
  import opened Addresses
  import opened Buffers
  import opened Bytes

  datatype DecodeError = TooShort | FragmentedDatagram(frag: byte) | UnsupportedAtyp(atyp: byte)

  datatype Decoded = Malformed(error: DecodeError) | Decoded(ip: IP, port: int, payload: seq<byte>)

  /** The address type octet and the address octets; To16 of anything but 4 or 16 octets is nil. */
  function AddressBlock(ip: IP): (byte, seq<byte>) {
    match To4(ip)
    case Some(v4) => (1, v4)
    case None => (4, if |ip| == 16 then ip else [])
  }

  /** A Go int stored as a uint16. */
  function PortWord(port: int): word {
    port % 0x1_0000
  }

  function Encode(ip: IP, port: int, payload: seq<byte>): seq<byte> {
    var (atyp, addr) := AddressBlock(ip);
    [0, 0, 0, atyp] + addr + Octets(PortWord(port)) + payload
  }

  method EncodeUDPDatagram(dstIP: IP, dstPort: int, payload: seq<byte>) returns (d: seq<byte>)
    ensures d == Encode(dstIP, dstPort, payload)
  {
    var (atyp, addr) := AddressBlock(dstIP);
    var hdr := NewBuffer(4 + |addr| + 2);
    hdr[0], hdr[1], hdr[2] := 0, 0, 0;
    hdr[3] := atyp;
    CopyInto(hdr, 4, addr);
    PutUint16(hdr, 4 + |addr|, PortWord(dstPort));
    assert hdr[..] == [0, 0, 0, atyp] + addr + Octets(PortWord(dstPort));
    d := hdr[..] + payload;
  }

  function DecodeAfter(data: seq<byte>, addrLen: nat): Decoded {
    if |data| < 4 + addrLen + 2 then Malformed(TooShort)
    else Decoded(data[4..4 + addrLen], Word(data[4 + addrLen], data[5 + addrLen]), data[6 + addrLen..])
  }

  function Decode(data: seq<byte>): Decoded {
    if |data| < 4 then Malformed(TooShort)
    else if data[2] != 0 then Malformed(FragmentedDatagram(data[2]))
    else if data[3] == 1 then DecodeAfter(data, 4)
    else if data[3] == 4 then DecodeAfter(data, 16)
    else Malformed(UnsupportedAtyp(data[3]))
  }

  lemma DecodeLayout(atyp: byte, addr: seq<byte>, port: word, payload: seq<byte>, a: byte, b: byte)
    requires (atyp == 1 && |addr| == 4) || (atyp == 4 && |addr| == 16)
    ensures Decode([a, b, 0, atyp] + addr + Octets(port) + payload) == Decoded(addr, port, payload)
  {
    var d := [a, b, 0, atyp] + addr + Octets(port) + payload;
    var n := |addr|;
    assert d[4..4 + n] == addr && d[6 + n..] == payload;
    assert d[4 + n] == port / 0x100 && d[5 + n] == port % 0x100;
  }

  /**
   * Decoding an encoded datagram gives back the canonical address, the port and the payload exactly for a real
   * address and port.
   */
  lemma DecodeOfEncode(ip: IP, port: int, payload: seq<byte>)
    ensures Decode(Encode(ip, port, payload)) == Decoded(Canonical(ip), port, payload) <==>
            (|ip| == 4 || |ip| == 16) && 0 <= port < 0x1_0000
  {
    var (atyp, addr) := AddressBlock(ip);
    if |ip| == 4 || |ip| == 16 {
      DecodeLayout(atyp, addr, PortWord(port), payload, 0, 0);
    } else {
      var d := Encode(ip, port, payload);
      assert d[2] == 0 && d[3] == 4;
      assert Canonical(ip) == ip;
      assert Decode(d).Decoded? ==> |Decode(d).ip| == 16;
    }
  }

  /** A datagram that decodes is its first octets, the address, the port and the payload, in this order. */
  lemma DecodedLayout(data: seq<byte>)
    requires Decode(data).Decoded?
    ensures var d := Decode(data);
            && ((data[3] == 1 && |d.ip| == 4) || (data[3] == 4 && |d.ip| == 16 && d.ip == data[4..20]))
            && 0 <= d.port < 0x1_0000
            && data == [data[0], data[1], 0, data[3]] + d.ip + Octets(d.port) + d.payload
  {
    var n := if data[3] == 1 then 4 else 16;
    OctetsOfWord(data[4 + n], data[5 + n]);
    assert data[4 + n..6 + n] == [data[4 + n], data[5 + n]];
    assert data == data[..4] + data[4..4 + n] + data[4 + n..6 + n] + data[6 + n..];
  }

  lemma EncodeLayout(a: byte, b: byte, atyp: byte, ip: IP, port: word, payload: seq<byte>)
    requires (atyp == 1 && |ip| == 4) || (atyp == 4 && |ip| == 16)
    ensures Encode(ip, port, payload) == [a, b, 0, atyp] + ip + Octets(port) + payload <==>
            a == 0 && b == 0 && !(atyp == 4 && V4Mapped(ip))
  {
    var e, d := Encode(ip, port, payload), [a, b, 0, atyp] + ip + Octets(port) + payload;
    assert e[0] == 0 && e[1] == 0 && d[0] == a && d[1] == b;
    if atyp == 4 && V4Mapped(ip) {
      assert |e| == |d| - 12;
    }
  }

  /**
   * Re-encoding a decoded datagram is the identity exactly when RSV is zero and the address is not an IPv4 one in
   * IPv6 clothes.
   */
  lemma EncodeOfDecode(data: seq<byte>)
    requires Decode(data).Decoded?
    ensures Encode(Decode(data).ip, Decode(data).port, Decode(data).payload) == data <==>
            data[0] == 0 && data[1] == 0 && !(data[3] == 4 && V4Mapped(data[4..20]))
  {
    var d := Decode(data);
    DecodedLayout(data);
    EncodeLayout(data[0], data[1], data[3], d.ip, d.port, d.payload);
  }

  // ---------- the layout, octet by octet (section 7 of RFC 1928) ----------

  /** RSV and FRAG are zero, ATYP is 1 before 4 address octets and 4 before 16, the port is big-endian. */
  lemma EncodedOctets(ip: IP, port: word, payload: seq<byte>)
    requires |ip| == 4 || |ip| == 16
    ensures |ip| == 4 ==> Encode(ip, port, payload) == [0, 0, 0, 1] + ip + [port / 0x100, port % 0x100] + payload
    ensures |ip| == 16 && ip != Mapped(ip[12..]) ==>
              Encode(ip, port, payload) == [0, 0, 0, 4] + ip + [port / 0x100, port % 0x100] + payload
    ensures |ip| == 16 && ip == Mapped(ip[12..]) ==> Encode(ip, port, payload) == Encode(ip[12..], port, payload)
  {
    MappedIff(ip);
  }

  /** Exactly which datagrams decode, and to what. */
  lemma DecodedOctets(data: seq<byte>)
    ensures Decode(data).Decoded? <==>
            |data| >= 4 && data[2] == 0 && ((data[3] == 1 && |data| >= 10) || (data[3] == 4 && |data| >= 22))
    ensures Decode(data).Decoded? && data[3] == 1 ==>
              Decode(data) == Decoded(data[4..8], data[8] as int * 0x100 + data[9], data[10..])
    ensures Decode(data).Decoded? && data[3] == 4 ==>
              Decode(data) == Decoded(data[4..20], data[20] as int * 0x100 + data[21], data[22..])
    ensures |data| >= 4 && data[2] != 0 ==> Decode(data) == Malformed(FragmentedDatagram(data[2]))
    ensures |data| >= 4 && data[2] == 0 && data[3] != 1 && data[3] != 4 ==>
              Decode(data) == Malformed(UnsupportedAtyp(data[3]))
  {
  }
}
