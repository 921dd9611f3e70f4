/** Byte buffers filled in place: make, copy and binary.BigEndian.PutUint16. */
module Buffers {
  import opened Bytes

  method NewBuffer(n: nat) returns (a: array<byte>)
    ensures fresh(a) && a[..] == Zeros(n)
  {
    a := new byte[n](_ => 0);
  }

  /** copy(a[at:], src) */
  method CopyInto(a: array<byte>, at: nat, src: seq<byte>)
    requires at + |src| <= a.Length
    modifies a
    ensures a[..] == old(a[..at]) + src + old(a[at + |src|..])
  {
    forall i | 0 <= i < |src| {
      a[at + i] := src[i];
    }
  }

  method PutUint16(a: array<byte>, k: nat, w: word)
    requires k + 1 < a.Length
    modifies a
    ensures a[..] == Put(old(a[..]), k, w)
  {
    a[k], a[k + 1] := w / 0x100, w % 0x100;
  }
}
