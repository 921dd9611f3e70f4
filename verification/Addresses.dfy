/** net.IP values as octet strings, and the canonical form Go prints and compares them in. */
module Addresses {
  import opened Bytes

  type IP = seq<byte>

  /** The prefix ::ffff:0:0/96 that carries an IPv4 address in 16 octets. */
  predicate V4Mapped(ip: IP) {
    |ip| == 16 && ip[..10] == Zeros(10) && ip[10] == 0xFF && ip[11] == 0xFF
  }

  /** net.IP.To4 */
  function To4(ip: IP): Option<IP> {
    if |ip| == 4 then Some(ip) else if V4Mapped(ip) then Some(ip[12..]) else None
  }

  /** Two addresses are equal, or print alike, when their canonical forms are the same. */
  function Canonical(ip: IP): IP {
    match To4(ip)
    case Some(v4) => v4
    case None => ip
  }

  /** The 16-octet form of an IPv4 address, spelled out (section 2.5.5.2 of RFC 4291). */
  function Mapped(v4: IP): IP {
    [0, 0, 0, 0, 0, 0, 0, 0, 0, 0, 0xFF, 0xFF] + v4
  }

  /** net.IP.Equal: the same octets, or an IPv4 address and its 16-octet form. */
  predicate SameHost(a: IP, b: IP) {
    a == b || (|a| == 4 && b == Mapped(a)) || (|b| == 4 && a == Mapped(b))
  }

  lemma MappedIff(ip: IP)
    ensures V4Mapped(ip) <==> |ip| == 16 && ip == Mapped(ip[12..])
  {
    if V4Mapped(ip) {
      assert ip == ip[..10] + [ip[10], ip[11]] + ip[12..];
    }
  }

  /** The canonical form is shared by exactly the addresses that Equal calls equal. */
  lemma SameCanonicalIff(a: IP, b: IP)
    ensures Canonical(a) == Canonical(b) <==> SameHost(a, b)
  {
    MappedIff(a);
    MappedIff(b);
    if |a| == 4 && b == Mapped(a) {
      assert b[12..] == a;
    }
    if |b| == 4 && a == Mapped(b) {
      assert a[12..] == b;
    }
  }
}
