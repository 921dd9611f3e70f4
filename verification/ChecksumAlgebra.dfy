/** Laws of the Internet checksum: its safe length, word order, byte order, error detection, self-verification. */
module ChecksumAlgebra {
  import opened Bytes
  import opened Checksum

  // ---------- sums and words ----------

  lemma {:induction false} TotalConcat(v: seq<word>, w: seq<word>)
    ensures Total(v + w) == Total(v) + Total(w)
  {
    if v == [] {
      assert v + w == w;
    } else {
      assert (v + w)[1..] == v[1..] + w;
      TotalConcat(v[1..], w);
    }
  }

  lemma {:induction false} TotalUpdate(w: seq<word>, i: nat, v: word)
    requires i < |w|
    ensures Total(w[i := v]) - v == Total(w) - w[i] >= 0
  {
    if i == 0 {
      assert w[0 := v][1..] == w[1..];
    } else {
      assert w[i := v][1..] == w[1..][i - 1 := v];
      TotalUpdate(w[1..], i - 1, v);
    }
  }

  lemma {:induction false} WordsConcat(a: seq<byte>, b: seq<byte>)
    requires |a| % 2 == 0
    ensures Words(a + b) == Words(a) + Words(b)
  {
    if |a| == 0 {
      assert a + b == b;
    } else {
      assert (a + b)[2..] == a[2..] + b;
      WordsConcat(a[2..], b);
    }
  }

  lemma PutBehind(b: seq<byte>, k: nat, w: word)
    requires 2 <= k && k + 1 < |b|
    ensures Put(b, k, w)[2..] == Put(b[2..], k - 2, w) && Put(b, k, w)[..2] == b[..2]
  {
  }

  lemma {:induction false} WordsUpdate(b: seq<byte>, k: nat, w: word)
    requires k % 2 == 0 && k + 1 < |b|
    ensures Words(Put(b, k, w)) == Words(b)[k / 2 := w]
    ensures Words(b)[k / 2] == Word(b[k], b[k + 1])
  {
    if k == 0 {
      assert Put(b, 0, w)[2..] == b[2..];
    } else {
      PutBehind(b, k, w);
      WordsUpdate(b[2..], k - 2, w);
    }
  }

  // ---------- the safe length is sharp ----------

  function Ones(n: nat): (b: seq<byte>)
    ensures |b| == n
  {
    seq(n, _ => 0xFF)
  }

  lemma {:induction false} TotalOfOnes(k: nat)
    ensures Total(Words(Ones(2 * k))) == 0xFFFF * k
  {
    if k > 0 {
      assert Ones(2 * k)[2..] == Ones(2 * (k - 1));
      TotalOfOnes(k - 1);
    }
  }

  lemma {:induction false} TotalOfZeros(n: nat)
    ensures Total(Words(Zeros(n))) == 0
  {
    if n > 1 {
      assert Zeros(n)[2..] == Zeros(n - 2);
      TotalOfZeros(n - 2);
    }
  }

  /** 0xFF over the whole safe length, then a single 1. */
  function Overflowing(n: nat): (b: seq<byte>)
    requires n > SAFE_LENGTH
    ensures |b| == n
  {
    Ones(2 * 65537) + ([1] + Zeros(n - SAFE_LENGTH - 1))
  }

  lemma TotalOfOneThenZeros(m: nat)
    ensures Total(Words([1] + Zeros(m))) == 0x100
  {
    var tail: seq<byte> := [1] + Zeros(m);
    if m > 0 {
      assert tail[2..] == Zeros(m - 1);
      TotalOfZeros(m - 1);
    }
  }

  lemma TotalOfOnesThen(k: nat, tail: seq<byte>)
    ensures Total(Words(Ones(2 * k) + tail)) == 0xFFFF * k + Total(Words(tail))
  {
    WordsConcat(Ones(2 * k), tail);
    TotalConcat(Words(Ones(2 * k)), Words(tail));
    TotalOfOnes(k);
  }

  lemma OverflowingTotal(n: nat)
    requires n > SAFE_LENGTH
    ensures Total(Words(Overflowing(n))) == U32 + 0xFF
  {
    var m := n - SAFE_LENGTH - 1;
    TotalOfOnesThen(65537, [1] + Zeros(m));
    TotalOfOneThenZeros(m);
  }

  /** A length is checksummed correctly whatever the octets if and only if it is at most 131074. */
  lemma SafeLengthIsSharp(n: nat)
    ensures (forall b: seq<byte> | |b| == n :: ChecksumOf(b) == Rfc1071(b)) <==> n <= 131074
  {
    if n <= SAFE_LENGTH {
      forall b: seq<byte> | |b| == n ensures ChecksumOf(b) == Rfc1071(b) {
        ChecksumMeetsRfc1071(b);
      }
    } else {
      var b := Overflowing(n);
      OverflowingTotal(n);
      ChecksumMeetsRfc1071Iff(b);
      assert |b| == n && ChecksumOf(b) != Rfc1071(b);
    }
  }

  // ---------- order of the words ----------

  lemma WithoutIndex(w: seq<word>, i: nat) returns (rest: seq<word>)
    requires i < |w|
    ensures |rest| == |w| - 1 && Total(w) == w[i] + Total(rest)
    ensures multiset(rest) == multiset(w) - multiset{w[i]}
  {
    var tail := [w[i]] + w[i + 1..];
    rest := w[..i] + w[i + 1..];
    assert w == w[..i] + tail;
    assert tail[1..] == w[i + 1..];
    TotalConcat(w[..i], w[i + 1..]);
    TotalConcat(w[..i], tail);
  }

  lemma {:induction false} TotalOfPermutation(v: seq<word>, w: seq<word>)
    requires multiset(v) == multiset(w)
    ensures Total(v) == Total(w)
  {
    if v == [] {
      assert |multiset(w)| == 0;
      assert w == [];
    } else {
      assert v[0] in multiset(w);
      var i :| 0 <= i < |w| && w[i] == v[0];
      var rest := WithoutIndex(w, i);
      assert v == [v[0]] + v[1..];
      assert multiset(v[1..]) == multiset(v) - multiset{v[0]};
      TotalOfPermutation(v[1..], rest);
    }
  }

  /** The checksum does not depend on the order of the 16-bit words, wrap-around or not. */
  lemma WordOrderIrrelevant(b: seq<byte>, c: seq<byte>)
    requires multiset(Words(b)) == multiset(Words(c))
    ensures ChecksumOf(b) == ChecksumOf(c)
  {
    TotalOfPermutation(Words(b), Words(c));
  }

  // ---------- byte order ----------

  function SwapWord(w: word): word {
    Word(w % 0x100, w / 0x100)
  }

  function SwapBytes(b: seq<byte>): (r: seq<byte>)
    requires |b| % 2 == 0
    ensures |r| == |b|
  {
    if b == [] then [] else [b[1], b[0]] + SwapBytes(b[2..])
  }

  lemma {:induction false} SwapTotals(b: seq<byte>) returns (q: nat)
    requires |b| % 2 == 0
    ensures 0x100 * Total(Words(b)) == Total(Words(SwapBytes(b))) + 0xFFFF * q
    ensures Total(Words(b)) == 0 <==> Total(Words(SwapBytes(b))) == 0
  {
    if b == [] {
      q := 0;
    } else {
      var rest := SwapTotals(b[2..]);
      assert SwapBytes(b)[2..] == SwapBytes(b[2..]);
      q := rest + b[0];
    }
  }

  lemma ResidueIsUnique(s: nat, r: word, q: int)
    requires s == r + 0xFFFF * q && (s == 0 <==> r == 0)
    ensures Residue(s) == r
  {
  }

  lemma ResidueQuotient(s: nat) returns (q: nat)
    ensures s == Residue(s) + 0xFFFF * q && (s == 0 <==> Residue(s) == 0)
  {
    q := if s == 0 then 0 else (s - 1) / 0xFFFF;
  }

  lemma ResidueOfSwap(s: nat, t: nat, q: nat)
    requires 0x100 * s == t + 0xFFFF * q && (s == 0 <==> t == 0)
    ensures Residue(t) == SwapWord(Residue(s))
  {
    var p := ResidueQuotient(s);
    var r := Residue(s);
    var hi, lo := r / 0x100, r % 0x100;
    assert 0x100 * (r as int) == (SwapWord(r) as int) + 0xFFFF * (hi as int);
    assert t == SwapWord(r) + 0xFFFF * (hi + 0x100 * p - q);
    assert r == 0 <==> SwapWord(r) == 0;
    ResidueIsUnique(t, SwapWord(r), hi + 0x100 * p - q);
  }

  /** Swapping the octets of every word swaps the octets of the result (section 2(B) of RFC 1071). */
  lemma ByteOrderIndependence(b: seq<byte>)
    requires |b| % 2 == 0 && |b| <= SAFE_LENGTH
    ensures ChecksumOf(SwapBytes(b)) == SwapWord(ChecksumOf(b))
  {
    var q := SwapTotals(b);
    var s, t := Total(Words(b)), Total(Words(SwapBytes(b)));
    ChecksumIsComplement(b);
    ChecksumIsComplement(SwapBytes(b));
    ResidueOfSwap(s, t, q);
    SwapOfComplement(Residue(s));
  }

  lemma SwapOfComplement(r: word)
    ensures SwapWord(0xFFFF - r) == 0xFFFF - SwapWord(r)
  {
    var hi, lo := r / 0x100, r % 0x100;
    assert 0xFFFF - r == 0x100 * (0xFF - hi) + (0xFF - lo);
  }

  // ---------- detecting a changed word ----------

  lemma ResidueClash(rest: nat, x: word, y: word)
    ensures Residue(rest + x) == Residue(rest + y) <==>
            x == y || (rest != 0 && ((x == 0 && y == 0xFFFF) || (x == 0xFFFF && y == 0)))
  {
    var p: int := ResidueQuotient(rest + x);
    var q: int := ResidueQuotient(rest + y);
    if Residue(rest + x) == Residue(rest + y) {
      assert x - y == 0xFFFF * (p - q);
    }
  }

  lemma {:induction false} ZeroTotal(b: seq<byte>)
    ensures Total(Words(b)) == 0 <==> forall i | 0 <= i < |b| :: b[i] == 0
  {
    if |b| > 1 {
      ZeroTotal(b[2..]);
      assert forall i | 2 <= i < |b| :: b[i] == b[2..][i - 2];
    }
  }

  /** With one word cleared, the sum is zero exactly when all other octets are. */
  lemma OtherOctets(b: seq<byte>, k: nat)
    requires k + 1 < |b|
    ensures Total(Words(Put(b, k, 0))) != 0 <==> exists i :: 0 <= i < |b| && i != k && i != k + 1 && b[i] != 0
  {
    var cleared := Put(b, k, 0);
    ZeroTotal(cleared);
    assert forall i | 0 <= i < |b| :: cleared[i] == if i == k || i == k + 1 then 0 else b[i];
    if Total(Words(cleared)) != 0 {
      var i :| 0 <= i < |cleared| && cleared[i] != 0;
      assert b[i] != 0;
    }
  }

  lemma TotalAround(b: seq<byte>, k: nat, w: word)
    requires k % 2 == 0 && k + 1 < |b|
    ensures Total(Words(Put(b, k, w))) == Total(Words(Put(b, k, 0))) + w
  {
    WordsUpdate(b, k, w);
    WordsUpdate(b, k, 0);
    TotalUpdate(Words(b), k / 2, w);
    TotalUpdate(Words(b), k / 2, 0);
  }

  lemma ChecksumAround(b: seq<byte>, k: nat, w: word)
    requires k % 2 == 0 && k + 1 < |b| <= SAFE_LENGTH
    ensures ChecksumOf(Put(b, k, w)) == 0xFFFF - Residue(Total(Words(Put(b, k, 0))) + w)
  {
    TotalAround(b, k, w);
    ChecksumIsComplement(Put(b, k, w));
  }

  lemma PutBack(b: seq<byte>, k: nat)
    requires k + 1 < |b|
    ensures Put(b, k, Word(b[k], b[k + 1])) == b
  {
  }

  lemma ComplementClash(rest: nat, v: word, w: word, cv: word, cw: word)
    requires cv == 0xFFFF - Residue(rest + v) && cw == 0xFFFF - Residue(rest + w)
    ensures cv == cw <==> v == w || (rest != 0 && ((v == 0 && w == 0xFFFF) || (v == 0xFFFF && w == 0)))
  {
    ResidueClash(rest, v, w);
  }

  lemma PutsAgreeIff(b: seq<byte>, k: nat, v: word, w: word)
    requires k % 2 == 0 && k + 1 < |b| <= SAFE_LENGTH
    ensures ChecksumOf(Put(b, k, v)) == ChecksumOf(Put(b, k, w)) <==>
            v == w || (Total(Words(Put(b, k, 0))) != 0 && ((v == 0 && w == 0xFFFF) || (v == 0xFFFF && w == 0)))
  {
    ChecksumAround(b, k, v);
    ChecksumAround(b, k, w);
    ComplementClash(Total(Words(Put(b, k, 0))), v, w, ChecksumOf(Put(b, k, v)), ChecksumOf(Put(b, k, w)));
  }

  /**
   * Replacing one word keeps the checksum only when 0x0000 and 0xFFFF trade places in a packet with another non-zero
   * octet.
   */
  lemma ChangedWordIsDetected(b: seq<byte>, k: nat, w: word)
    requires k % 2 == 0 && k + 1 < |b| <= SAFE_LENGTH
    ensures var was := Word(b[k], b[k + 1]);
            ChecksumOf(Put(b, k, w)) == ChecksumOf(b) <==>
            w == was || (((was == 0 && w == 0xFFFF) || (was == 0xFFFF && w == 0)) &&
                         exists i :: 0 <= i < |b| && i != k && i != k + 1 && b[i] != 0)
  {
    PutBack(b, k);
    PutsAgreeIff(b, k, Word(b[k], b[k + 1]), w);
    OtherOctets(b, k);
  }

  // ---------- a filled-in checksum verifies ----------

  lemma ComplementCompletes(s: nat)
    ensures Residue(s + (0xFFFF - Residue(s))) == 0xFFFF
  {
    var q := ResidueQuotient(s);
    ResidueIsUnique(s + (0xFFFF - Residue(s)), 0xFFFF, q);
  }

  lemma TotalOfFilled(b: seq<byte>, k: nat, c: word)
    requires k % 2 == 0 && k + 1 < |b| && b[k] == 0 && b[k + 1] == 0
    ensures Total(Words(Put(b, k, c))) == Total(Words(b)) + c
  {
    WordsUpdate(b, k, c);
    TotalUpdate(Words(b), k / 2, c);
  }

  lemma FoldCompleted(s: nat, c: word)
    requires s + c < U32 && c == 0xFFFF - Residue(s)
    ensures Fold(Wrap(s + c)) == 0xFFFF
  {
    ComplementCompletes(s);
    FoldOfSmall(s + c);
  }

  /** Writing the checksum into a field that was zero makes the whole checksum to zero. */
  lemma FilledChecksumVerifies(b: seq<byte>, k: nat)
    requires k % 2 == 0 && k + 1 < |b| <= SAFE_LENGTH && b[k] == 0 && b[k + 1] == 0
    ensures ChecksumOf(Put(b, k, ChecksumOf(b))) == 0
  {
    var c := ChecksumOf(b);
    ChecksumIsComplement(b);
    TotalOfFilled(b, k, c);
    NoWrap(Put(b, k, c));
    FoldCompleted(Total(Words(b)), c);
  }

  // ---------- the checksum in terms of single octets ----------

  /** Octets at even places count 256-fold. */
  function OctetSum(b: seq<byte>): nat {
    if b == [] then 0
    else OctetSum(b[..|b| - 1]) + (if |b| % 2 == 1 then 0x100 else 1) * b[|b| - 1] as int
  }

  lemma {:induction false} LastOctet(b: seq<byte>)
    requires b != []
    ensures Total(Words(b)) ==
            Total(Words(b[..|b| - 1])) + (if |b| % 2 == 1 then 0x100 else 1) * b[|b| - 1] as int
  {
    if |b| > 2 {
      assert b[2..][..|b| - 3] == b[..|b| - 1][2..];
      LastOctet(b[2..]);
    }
  }

  lemma {:induction false} TotalIsOctetSum(b: seq<byte>)
    ensures Total(Words(b)) == OctetSum(b)
    decreases |b|
  {
    if b != [] {
      LastOctet(b);
      TotalIsOctetSum(b[..|b| - 1]);
    }
  }

  predicate AllZero(b: seq<byte>) {
    forall i | 0 <= i < |b| :: b[i] == 0
  }

  /** Whether c is the word that completes octets summing to s, all zero or not, to a multiple of 65535. */
  predicate Completes(c: word, s: nat, zero: bool) {
    (c + s) % 0xFFFF == 0 && (c == 0xFFFF <==> zero)
  }

  lemma ResidueCompletes(s: nat)
    ensures Completes(0xFFFF - Residue(s), s, s == 0)
  {
    var q := ResidueQuotient(s);
    assert 0xFFFF - Residue(s) + s == 0xFFFF * (q + 1);
  }

  /** The checksum of every input of safe length completes its octets. */
  lemma ChecksumCompletes(b: seq<byte>)
    requires |b| <= 131074
    ensures Completes(ChecksumOf(b), OctetSum(b), AllZero(b))
  {
    ChecksumIsComplement(b);
    TotalIsOctetSum(b);
    ZeroTotal(b);
    ResidueCompletes(OctetSum(b));
  }

  /** No two words complete the same octets, so that determines the checksum. */
  lemma OnlyOneCompletes(s: nat, x: word, y: word, zero: bool)
    requires Completes(x, s, zero) && Completes(y, s, zero)
    ensures x == y
  {
    var p, q := (x + s) / 0xFFFF, (y + s) / 0xFFFF;
    assert x - y == 0xFFFF * (p - q);
  }

  /** The worked example of section 3 of RFC 1071. */
  lemma WorkedExample()
    ensures ChecksumOf([0x00, 0x01, 0xF2, 0x03, 0xF4, 0xF5, 0xF6, 0xF7]) == 0xFFFF - 0xDDF2
  {
    var b: seq<byte> := [0x00, 0x01, 0xF2, 0x03, 0xF4, 0xF5, 0xF6, 0xF7];
    assert b[2..] == [0xF2, 0x03, 0xF4, 0xF5, 0xF6, 0xF7] && b[2..][2..] == [0xF4, 0xF5, 0xF6, 0xF7];
    assert b[2..][2..][2..] == [0xF6, 0xF7] && b[2..][2..][2..][2..] == [];
    assert Words(b) == [0x0001, 0xF203, 0xF4F5, 0xF6F7];
    assert Total([0x0001, 0xF203, 0xF4F5, 0xF6F7]) == 0x2DDF0;
    ChecksumIsComplement(b);
  }
}
