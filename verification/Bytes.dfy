/** Octets, 16-bit words and the optional value shared by the other modules. */
module Bytes {
  datatype Option<+T> = None | Some(value: T)

  type byte = x: int | 0 <= x < 0x100
  type word = x: int | 0 <= x < 0x1_0000

  /** binary.BigEndian.Uint16 on two octets. */
  function Word(hi: byte, lo: byte): word {
    hi * 0x100 + lo
  }

  /** The first n elements, or all of them when there are fewer. */
  function Take<T>(s: seq<T>, n: nat): seq<T> {
    if |s| <= n then s else s[..n]
  }

  function Max(x: int, y: int): int {
    if x > y then x else y
  }

  /** 1 for true. */
  function Bit(b: bool): nat {
    if b then 1 else 0
  }

  /** The two octets binary.BigEndian.PutUint16 stores. */
  function Octets(w: word): seq<byte> {
    [w / 0x100, w % 0x100]
  }

  lemma OctetsOfWord(hi: byte, lo: byte)
    ensures Octets(Word(hi, lo)) == [hi, lo]
  {
  }

  function Zeros(n: nat): (z: seq<byte>)
    ensures |z| == n
  {
    seq(n, _ => 0)
  }

  /** binary.BigEndian.PutUint16(b[k:k+2], w). */
  function Put(b: seq<byte>, k: nat, w: word): (r: seq<byte>)
    requires k + 1 < |b|
    ensures |r| == |b|
  {
    b[k := w / 0x100][k + 1 := w % 0x100]
  }
}
