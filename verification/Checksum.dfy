/** The internet checksum (RFC 1071): the fast form over 32-bit words, the simple
    form over 16-bit words, and the ones' complement sum both stand for. */
module Checksum {
  import opened Bitwise

  const WRAP64 := 0x1_0000_0000_0000_0000

  function U16(b: seq<byte>, at: nat): uint16
    requires at + 2 <= |b|
  {
    (b[at] as int) * 0x100 + b[at + 1]
  }

  function U32(b: seq<byte>, at: nat): uint32
    requires at + 4 <= |b|
  {
    U16(b, at) * 0x1_0000 + U16(b, at + 2)
  }

  /** The sum of the big-endian 16-bit words, an odd last byte padded with zero. */
  ghost function Sum(b: seq<byte>): nat {
    if |b| == 0 then 0 else if |b| == 1 then (b[0] as int) * 0x100 else U16(b, 0) + Sum(b[2..])
  }

  /** The ones' complement sum as a 16-bit number: congruent modulo 65535, and zero only for zero. */
  ghost function Ones(n: nat): uint16 {
    if n == 0 then 0 else 1 + (n - 1) % 0xffff
  }

  function Complement(x: uint16): uint16 {
    0xffff - x
  }

  // ----- folding

  function Fold(ac: nat): nat {
    ac / 0x1_0000 + ac % 0x1_0000
  }

  lemma OnesOfFold(ac: nat)
    ensures Ones(Fold(ac)) == Ones(ac)
  {
    var hi, lo := ac / 0x1_0000, ac % 0x1_0000;
    assert ac == Fold(ac) + 0xffff * hi;
    if Fold(ac) > 0 {
      SameRemainder(Fold(ac) - 1, hi);
    }
  }

  lemma SameRemainder(n: nat, k: nat)
    ensures (n + 0xffff * k) % 0xffff == n % 0xffff
  {
  }

  lemma OnesOfSmall(n: nat)
    requires n <= 0xffff
    ensures Ones(n) == n
  {
  }

  /** Four folds are enough for every 64-bit accumulator: each bound below is the
      greatest value a fold of the one above can give. */
  lemma FourFolds(ac: uint64)
    ensures Fold(Fold(Fold(Fold(ac)))) == Ones(ac)
  {
    var f1 := Fold(ac);
    assert f1 <= 0x1_0000_0000_fffe;
    var f2 := Fold(f1);
    assert f2 <= 0x1_0000_fffe;
    var f3 := Fold(f2);
    assert f3 <= 0x1_fffe;
    var f4 := Fold(f3);
    assert f4 <= 0xffff;
    OnesOfFold(ac);
    OnesOfFold(f1);
    OnesOfFold(f2);
    OnesOfFold(f3);
    OnesOfSmall(f4);
  }

  /** What the 16-bit result says of a sum, without the definition of Ones. */
  lemma OnesMeans(n: nat, r: uint16)
    ensures r == Ones(n) <==> r % 0xffff == n % 0xffff && (r == 0 <==> n == 0)
  {
  }

  lemma OnesAdd(m: nat, n: nat)
    ensures Ones(Ones(m) + n) == Ones(m + n)
  {
    if m > 0 {
      var k := (m - 1) / 0xffff;
      assert m + n - 1 == (Ones(m) + n - 1) + 0xffff * k;
      SameRemainder(Ones(m) + n - 1, k);
    }
  }

  /** Adding the complement of a sum to it gives minus zero. */
  lemma ComplementCloses(n: nat)
    ensures Ones(n + Complement(Ones(n))) == 0xffff
  {
    var c := Complement(Ones(n));
    OnesAdd(n, c);
    assert Ones(n) + c == 0xffff;
  }

  // ----- the sum of 32-bit words

  /** The sum of the big-endian 32-bit words, then of what is left. */
  ghost function WordSum(b: seq<byte>): nat {
    if |b| < 4 then Sum(b) else U32(b, 0) + WordSum(b[4..])
  }

  /** Three forms of one sum: 32-bit words exceed the 16-bit ones by a multiple of 65535. */
  lemma {:induction false} WordSumIsSum(b: seq<byte>)
    ensures exists k: nat :: WordSum(b) == Sum(b) + 0xffff * k
    ensures Sum(b) == 0 ==> WordSum(b) == 0
    ensures WordSum(b) <= 0x4000_0000 * (|b| + 3)
  {
    if |b| < 4 {
      assert Sum(b) == Sum(b) + 0xffff * 0;
      if |b| >= 2 {
        assert Sum(b[2..]) <= 0xff00;
      }
    } else {
      WordSumIsSum(b[4..]);
      var k: nat :| WordSum(b[4..]) == Sum(b[4..]) + 0xffff * k;
      assert b[2..][2..] == b[4..];
      assert Sum(b) == U16(b, 0) + (U16(b, 2) + Sum(b[4..]));
      var k' := U16(b, 0) + k;
      assert WordSum(b) == Sum(b) + 0xffff * k';
    }
  }

  /** Under the ones' complement the width of the words does not matter. */
  lemma OnesOfWordSum(b: seq<byte>, n: nat)
    ensures Ones(n + WordSum(b)) == Ones(n + Sum(b))
  {
    WordSumIsSum(b);
    var k: nat :| WordSum(b) == Sum(b) + 0xffff * k;
    if n + Sum(b) > 0 {
      SameRemainder(n + Sum(b) - 1, k);
    }
  }

  lemma {:induction false} SumBound(b: seq<byte>)
    ensures Sum(b) <= 0x8000 * (|b| + 1)
  {
    if |b| >= 2 {
      SumBound(b[2..]);
    }
  }

  /** The sum of two pieces is the sum of the whole when the cut is at an even offset. */
  lemma {:induction false} SumSplit(a: seq<byte>, b: seq<byte>)
    requires |a| % 2 == 0
    ensures Sum(a + b) == Sum(a) + Sum(b)
  {
    if a == [] {
      assert a + b == b;
    } else {
      assert (a + b)[2..] == a[2..] + b;
      SumSplit(a[2..], b);
    }
  }

  // ----- the fast form

  function Wrap64(n: nat): uint64 {
    n % WRAP64
  }

  /** n 32-bit words from offset `lo`, each added with wrap-around: the body of
      the source's unrolled blocks. */
  method AddWords(b: seq<byte>, lo: nat, n: nat, initial: uint64) returns (ac: uint64)
    requires lo + 4 * n <= |b|
    ensures Wrap64(ac + WordSum(b[lo + 4 * n..])) == Wrap64(initial + WordSum(b[lo..]))
  {
    ac := initial;
    for i := 0 to n
      invariant Wrap64(ac + WordSum(b[lo + 4 * i..])) == Wrap64(initial + WordSum(b[lo..]))
    {
      var w := U32(b, lo + 4 * i);
      assert b[lo + 4 * i..][4..] == b[lo + 4 * (i + 1)..];
      WrapAgain(ac + w, WordSum(b[lo + 4 * (i + 1)..]));
      ac := Wrap64(ac + w);
    }
  }

  lemma WrapAgain(m: nat, n: nat)
    ensures Wrap64(Wrap64(m) + n) == Wrap64(m + n)
  {
    var q := m / WRAP64;
    assert m + n == (Wrap64(m) + n) + WRAP64 * q;
    assert (Wrap64(m) + n + WRAP64 * q) % WRAP64 == (Wrap64(m) + n) % WRAP64;
  }

  /** One rung of the ladder: a block of the given size, if that many bytes are left. */
  method AddRung(b: seq<byte>, lo: nat, size: nat, initial: uint64) returns (ac: uint64, next: nat)
    requires lo <= |b| < lo + 2 * size && size % 4 == 0
    ensures lo <= next <= |b| < next + size
    ensures Wrap64(ac + WordSum(b[next..])) == Wrap64(initial + WordSum(b[lo..]))
  {
    ac, next := initial, lo;
    if |b| - lo >= size {
      ac := AddWords(b, lo, size / 4, ac);
      next := lo + size;
    }
  }

  method ChecksumNoFold(b: seq<byte>, initial: uint64) returns (ac: uint64)
    ensures ac == Wrap64(initial + WordSum(b))
    ensures initial + WordSum(b) < WRAP64 ==> ac == initial + WordSum(b)
  {
    ac := initial;
    var lo := 0;
    assert b[0..] == b;
    while |b| - lo >= 128
      invariant 0 <= lo <= |b|
      invariant Wrap64(ac + WordSum(b[lo..])) == Wrap64(initial + WordSum(b))
    {
      ac := AddWords(b, lo, 32, ac);
      lo := lo + 128;
    }
    ac, lo := AddRung(b, lo, 64, ac);
    ac, lo := AddRung(b, lo, 32, ac);
    ac, lo := AddRung(b, lo, 16, ac);
    ac, lo := AddRung(b, lo, 8, ac);
    ac, lo := AddRung(b, lo, 4, ac);
    ac := AddTail(b, lo, ac);
  }

  method AddTail(b: seq<byte>, lo: nat, initial: uint64) returns (ac: uint64)
    requires lo <= |b| < lo + 4
    ensures ac == Wrap64(initial + WordSum(b[lo..]))
  {
    ac := initial;
    var at := lo;
    if |b| - at >= 2 {
      ac := Wrap64(ac + U16(b, at));
      assert b[at..][2..] == b[at + 2..];
      at := at + 2;
    }
    WrapAgain(initial + if at == lo then 0 else U16(b, lo), Sum(b[at..]));
    if |b| - at == 1 {
      ac := Wrap64(ac + (b[at] as int) * 0x100);
    }
  }

  /** A packet is too short for the 64-bit accumulator to wrap. */
  lemma OnesOfPacket(b: seq<byte>, initial: nat)
    requires initial <= 0xffff_ffff_ffff && |b| <= 0xffff
    ensures Wrap64(initial + WordSum(b)) == initial + WordSum(b)
    ensures Ones(Wrap64(initial + WordSum(b))) == Ones(initial + Sum(b))
  {
    WordSumIsSum(b);
    OnesOfWordSum(b, initial);
  }

  method Checksum(b: seq<byte>, initial: uint64) returns (r: uint16)
    ensures r == Ones(Wrap64(initial + WordSum(b)))
    ensures initial <= 0xffff_ffff_ffff && |b| <= 0xffff ==> r == Ones(initial + Sum(b))
  {
    var ac := ChecksumNoFold(b, initial);
    FourFolds(ac);
    if initial <= 0xffff_ffff_ffff && |b| <= 0xffff {
      OnesOfPacket(b, initial);
    }
    ac := Fold(ac);
    ac := Fold(ac);
    ac := Fold(ac);
    ac := Fold(ac);
    r := ac;
  }

  // ----- the simple form

  method SimpleChecksum(b: seq<byte>, initial: uint16) returns (r: uint16)
    requires |b| <= 0xffff
    ensures r == Complement(Ones(initial + Sum(b)))
  {
    var v: uint32 := initial;
    var i := 0;
    SumBound(b);
    assert b[0..] == b;
    while i < |b| - 1
      invariant 0 <= i <= |b| && i % 2 == 0
      invariant v + Sum(b[i..]) == initial + Sum(b)
    {
      assert b[i..][2..] == b[i + 2..];
      v := v + U16(b, i);
      i := i + 2;
    }
    if |b| % 2 == 1 {
      v := v + (b[|b| - 1] as int) * 0x100;
    }
    assert v == initial + Sum(b);
    while v > 0xffff
      invariant Ones(v) == Ones(initial + Sum(b))
    {
      OnesOfFold(v);
      v := Fold(v);
    }
    OnesOfSmall(v);
    r := Complement(v);
  }

  /** The fast form is the complement of the simple one on every buffer a packet fits in. */
  method BothForms(b: seq<byte>, initial: uint16) returns (fast: uint16, simple: uint16)
    requires |b| <= 0xffff
    ensures fast == Complement(simple)
  {
    fast := Checksum(b, initial);
    simple := SimpleChecksum(b, initial);
  }

  // ----- the pseudo header

  function Bytes16(x: uint16): seq<byte> {
    [x / 0x100, x % 0x100]
  }

  /** The fields a transport checksum covers beside the segment itself. */
  ghost function PseudoSum(protocol: uint8, src: seq<byte>, dst: seq<byte>, totalLen: uint16): nat {
    WordSum(src) + WordSum(dst) + protocol + totalLen
  }

  lemma AddressSumBound(b: seq<byte>)
    requires |b| <= 16
    ensures WordSum(b) <= 0x4_c000_0000
  {
    WordSumIsSum(b);
  }

  lemma WordSumOfPair(b: seq<byte>)
    requires |b| == 2
    ensures WordSum(b) == U16(b, 0)
  {
    assert Sum(b) == U16(b, 0) + Sum(b[2..]);
    assert b[2..] == [];
  }

  method PseudoHeaderChecksumNoFold(protocol: uint8, src: seq<byte>, dst: seq<byte>,
      totalLen: uint16) returns (ac: uint64)
    requires |src| <= 16 && |dst| <= 16
    ensures ac == PseudoSum(protocol, src, dst, totalLen) <= 0xffff_ffff_ffff
  {
    AddressSumBound(src);
    AddressSumBound(dst);
    ac := ChecksumNoFold(src, 0);
    ac := ChecksumNoFold(dst, ac);
    WordSumOfPair([0, protocol]);
    ac := ChecksumNoFold([0, protocol], ac);
    WordSumOfPair(Bytes16(totalLen));
    ac := ChecksumNoFold(Bytes16(totalLen), ac);
  }
}
