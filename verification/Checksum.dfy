/** The Internet checksum of go/icmp_reject.go, and what RFC 1071 says it should be. */
module Checksum {
  import opened Bytes

  const U32 := 0x1_0000_0000
  // 65537 words of 0xFFFF sum to exactly 2^32 - 1.
  const SAFE_LENGTH := 131074

  // ---------- the mathematical sum ----------

  /** Big-endian 16-bit words; an odd last octet is padded with zero (section 1 of RFC 1071). */
  function Words(b: seq<byte>): (w: seq<word>)
    ensures |w| == (|b| + 1) / 2
  {
    if |b| == 0 then []
    else if |b| == 1 then [Word(b[0], 0)]
    else [Word(b[0], b[1])] + Words(b[2..])
  }

  function Total(w: seq<word>): nat {
    if w == [] then 0 else w[0] + Total(w[1..])
  }

  /** One's-complement addition: the carry out of bit 15 is added back in. */
  function AddOnes(x: word, y: word): word {
    if x + y < 0x1_0000 then x + y else x + y - 0xFFFF
  }

  function OnesSum(w: seq<word>): word {
    if w == [] then 0 else AddOnes(w[0], OnesSum(w[1..]))
  }

  /** The checksum RFC 1071 asks for. */
  function Rfc1071(b: seq<byte>): word {
    0xFFFF - OnesSum(Words(b))
  }

  /** The residue modulo 65535, with 0 reserved for a zero sum. */
  function Residue(s: nat): word {
    if s == 0 then 0 else (s - 1) % 0xFFFF + 1
  }

  // ---------- the code's sum ----------

  /** The carry-folding loop on a uint32 accumulator. */
  function Fold(s: nat): (r: word) {
    if s < 0x1_0000 then s else Fold(s % 0x1_0000 + s / 0x1_0000)
  }

  function FoldRounds(s: nat): nat {
    if s < 0x1_0000 then 0 else 1 + FoldRounds(s % 0x1_0000 + s / 0x1_0000)
  }

  /** A value kept in a uint32. */
  function Wrap(s: nat): (r: nat)
    ensures r < U32
  {
    s % U32
  }

  /** What the code computes: the accumulator wraps at 2^32. */
  function ChecksumOf(b: seq<byte>): word {
    0xFFFF - Fold(Wrap(Total(Words(b))))
  }

  method FoldCarries(start: nat) returns (sum: word, ghost rounds: nat)
    requires start < U32
    ensures sum == Fold(start) && rounds <= 2
  {
    FoldTakesAtMostTwoRounds(start);
    var s := start;
    rounds := 0;
    while s / 0x1_0000 != 0
      invariant 0 <= s < U32 && Fold(s) == Fold(start) && rounds + FoldRounds(s) == FoldRounds(start)
      decreases s
    {
      s := s % 0x1_0000 + s / 0x1_0000;
      rounds := rounds + 1;
    }
    sum := s;
  }

  /** sum += w in a uint32. */
  method AddWord(sum: nat, w: word) returns (r: nat, ghost carry: nat)
    requires sum < U32
    ensures r < U32 && sum + w == r + U32 * carry
  {
    r := Wrap(sum + w);
    carry := WrapCarry(sum + w);
  }

  /** The summation loop: 16-bit words, then a padded odd octet. */
  method AddWords(start: nat, b: seq<byte>) returns (sum: nat, ghost wraps: nat)
    requires start < U32
    ensures sum == Wrap(start + Total(Words(b))) < U32
    ensures sum + U32 * wraps == start + Total(Words(b))
  {
    sum, wraps := start, 0;
    var n := |b|;
    var i := 0;
    ghost var half, carry: nat := 0, 0;
    assert b[0..] == b;
    while i + 1 < n
      invariant 0 <= i == 2 * half <= n && sum < U32
      invariant sum + U32 * wraps + Total(Words(b[i..])) == start + Total(Words(b))
    {
      TotalFrom(b, i);
      sum, carry := AddWord(sum, Word(b[i], b[i + 1]));
      wraps := wraps + carry;
      i := i + 2;
      half := half + 1;
    }
    LastWord(b, i, half);
    if n % 2 == 1 {
      sum, carry := AddWord(sum, Word(b[n - 1], 0));
      wraps := wraps + carry;
    }
    WrapIsUnique(start + Total(Words(b)), sum, wraps);
  }

  lemma LastWord(b: seq<byte>, i: nat, half: nat)
    requires i == 2 * half && i <= |b| <= i + 1
    ensures Total(Words(b[i..])) == if |b| % 2 == 1 then Word(b[|b| - 1], 0) else 0
  {
    assert b[i..] == if |b| % 2 == 1 then [b[|b| - 1]] else [];
  }

  method InternetChecksum(b: seq<byte>) returns (c: word)
    ensures c == ChecksumOf(b)
    ensures |b| <= SAFE_LENGTH ==> c == Rfc1071(b)
  {
    var sum, _ := AddWords(0, b);
    var folded, _ := FoldCarries(sum);
    c := 0xFFFF - folded;
    if |b| <= SAFE_LENGTH {
      ChecksumMeetsRfc1071(b);
    }
  }

  lemma TotalFrom(b: seq<byte>, i: nat)
    requires i + 1 < |b|
    ensures Total(Words(b[i..])) == Word(b[i], b[i + 1]) + Total(Words(b[i + 2..]))
  {
    assert b[i..][2..] == b[i + 2..];
    assert Words(b[i..]) == [Word(b[i], b[i + 1])] + Words(b[i + 2..]);
  }

  lemma WrapCarry(s: nat) returns (carry: nat)
    ensures s == Wrap(s) + U32 * carry
  {
    carry := s / U32;
  }

  lemma WrapIsUnique(s: nat, r: nat, wraps: nat)
    requires r < U32 && s == r + U32 * wraps
    ensures Wrap(s) == r
  {
  }

  // ---------- refinement ----------

  lemma {:induction false} OnesSumIsResidue(w: seq<word>)
    ensures OnesSum(w) == Residue(Total(w))
  {
    if w != [] {
      OnesSumIsResidue(w[1..]);
    }
  }

  /** One round of folding keeps the residue. */
  lemma ResidueOfFold(low: nat, high: nat)
    requires high > 0
    ensures Residue(low + high) == Residue(low + 0x1_0000 * high)
  {
    ModShift(low + high - 1, high);
  }

  lemma {:induction false} FoldIsResidue(s: nat)
    ensures Fold(s) == Residue(s)
    decreases s
  {
    if s >= 0x1_0000 {
      FoldIsResidue(s % 0x1_0000 + s / 0x1_0000);
      ResidueOfFold(s % 0x1_0000, s / 0x1_0000);
    }
  }

  lemma FoldTakesAtMostTwoRounds(s: nat)
    requires s < U32
    ensures FoldRounds(s) <= 2
  {
    var s1 := s % 0x1_0000 + s / 0x1_0000;
    var s2 := s1 % 0x1_0000 + s1 / 0x1_0000;
    assert s1 < 0x1_0000 || s2 < 0x1_0000;
    assert FoldRounds(s1) == if s1 < 0x1_0000 then 0 else 1 + FoldRounds(s2);
  }

  lemma {:induction false} TotalBound(w: seq<word>)
    ensures Total(w) <= 0xFFFF * |w|
  {
    if w != [] {
      TotalBound(w[1..]);
    }
  }

  lemma ModShift(x: nat, m: nat)
    ensures (x + 0xFFFF * m) % 0xFFFF == x % 0xFFFF
  {
  }

  lemma SameResidue(k: nat, x: nat)
    ensures (k + x) % 0xFFFF == x % 0xFFFF <==> k % 0xFFFF == 0
  {
  }

  /** Exactly which inputs the wrapping accumulator gets right. */
  lemma ChecksumMeetsRfc1071Iff(b: seq<byte>)
    ensures var s := Total(Words(b));
            ChecksumOf(b) == Rfc1071(b) <==>
            s < U32 || (s / U32 % 0xFFFF == 0 && s % U32 != 0)
  {
    var s := Total(Words(b));
    OnesSumIsResidue(Words(b));
    FoldIsResidue(Wrap(s));
    WrapKeepsResidueIff(s);
  }

  lemma WrapKeepsResidueIff(s: nat)
    ensures Residue(Wrap(s)) == Residue(s) <==> s < U32 || (s / U32 % 0xFFFF == 0 && s % U32 != 0)
  {
    var k, r := s / U32, s % U32;
    if k > 0 && r > 0 {
      CarriesKeepResidueIff(k, r);
    }
  }

  lemma CarriesKeepResidueIff(k: nat, r: nat)
    requires k > 0 && r > 0
    ensures Residue(r + U32 * k) == Residue(r) <==> k % 0xFFFF == 0
  {
    assert r + U32 * k - 1 == (k + (r - 1)) + 0xFFFF * (0x1_0001 * k);
    ModShift(k + (r - 1), 0x1_0001 * k);
    SameResidue(k, r - 1);
  }

  lemma NoWrap(b: seq<byte>)
    requires |b| <= SAFE_LENGTH
    ensures Total(Words(b)) < U32
  {
    var w := Words(b);
    TotalBound(w);
    var n := |w|;
    assert n <= 65537 by { HalfLength(|b|); }
  }

  lemma HalfLength(n: nat)
    requires n <= SAFE_LENGTH
    ensures (n + 1) / 2 <= 65537
  {
  }

  lemma ChecksumIsComplement(b: seq<byte>)
    requires |b| <= SAFE_LENGTH
    ensures ChecksumOf(b) == 0xFFFF - Residue(Total(Words(b)))
  {
    NoWrap(b);
    FoldOfSmall(Total(Words(b)));
  }

  lemma FoldOfSmall(s: nat)
    requires s < U32
    ensures Fold(Wrap(s)) == Residue(s)
  {
    assert Wrap(s) == s;
    FoldIsResidue(s);
  }

  lemma ChecksumMeetsRfc1071(b: seq<byte>)
    requires |b| <= SAFE_LENGTH
    ensures ChecksumOf(b) == Rfc1071(b)
  {
    ChecksumIsComplement(b);
    OnesSumIsResidue(Words(b));
  }
}
