/** Addresses as big-endian byte strings, and the bit arithmetic that the
    routing trie does on them: the XOR/leading-zeros form of the common prefix
    length, the bit test of a node, and the CIDR mask. Each is tied to the plain
    reading of an address as a sequence of bits. */
module AddressBits {
  import opened Bitwise

  type Address = ip: seq<byte> | |ip| == 4 || |ip| == 16 witness [0, 0, 0, 0]

  // ----- the plain reading: a sequence of booleans, most significant first

  function Bits(ip: seq<byte>): (s: seq<bool>)
    ensures |s| == 8 * |ip|
  {
    FirstBits(ip, 8 * |ip|)
  }

  function FirstBits(ip: seq<byte>, n: nat): (s: seq<bool>)
    requires n <= 8 * |ip|
    ensures |s| == n
  {
    if n == 0 then [] else FirstBits(ip, n - 1) + [Bit(ip[(n - 1) / 8], 7 - (n - 1) % 8)]
  }

  lemma {:induction false} FirstBitsAt(ip: seq<byte>, n: nat, k: nat)
    requires k < n <= 8 * |ip|
    ensures FirstBits(ip, n)[k] == Bit(ip[k / 8], 7 - k % 8)
  {
    if k < n - 1 {
      FirstBitsAt(ip, n - 1, k);
    }
  }

  lemma BitsAt(ip: seq<byte>)
    ensures forall k :: 0 <= k < 8 * |ip| ==> Bits(ip)[k] == Bit(ip[k / 8], 7 - k % 8)
  {
    forall k | 0 <= k < 8 * |ip|
      ensures Bits(ip)[k] == Bit(ip[k / 8], 7 - k % 8)
    {
      FirstBitsAt(ip, 8 * |ip|, k);
    }
  }

  /** Length of the longest common prefix of two bit strings. */
  function Common(s: seq<bool>, t: seq<bool>): (n: nat)
    requires |s| == |t|
    ensures n <= |s|
    ensures s[..n] == t[..n]
    ensures n < |s| ==> s[n] != t[n]
  {
    if s == [] || s[0] != t[0] then 0
    else
      var m := Common(s[1..], t[1..]);
      assert s[..m + 1] == [s[0]] + s[1..][..m];
      assert t[..m + 1] == [t[0]] + t[1..][..m];
      m + 1
  }

  lemma CommonAtLeast(s: seq<bool>, t: seq<bool>, n: nat)
    requires |s| == |t| && n <= |s|
    ensures Common(s, t) >= n <==> s[..n] == t[..n]
  {
    var m := Common(s, t);
    if m >= n {
      assert s[..n] == s[..m][..n];
      assert t[..n] == t[..m][..n];
    } else {
      assert s[..n][m] != t[..n][m];
    }
  }

  lemma CommonIs(s: seq<bool>, t: seq<bool>, n: nat)
    requires |s| == |t| && n <= |s|
    requires s[..n] == t[..n] && (n < |s| ==> s[n] != t[n])
    ensures Common(s, t) == n
  {
    CommonAtLeast(s, t, n);
    if n < |s| {
      CommonAtLeast(s, t, n + 1);
      assert s[..n + 1][n] == s[n] && t[..n + 1][n] == t[n];
    }
  }

  // ----- the machine arithmetic

  /** The big-endian load of a byte string. */
  function BigEndian(b: seq<byte>): nat {
    if b == [] then 0 else 256 * BigEndian(b[..|b| - 1]) + b[|b| - 1]
  }

  /** Number of binary digits of x. */
  function Len(x: nat): nat {
    if x == 0 then 0 else 1 + Len(x / 2)
  }

  function LeadingZeros(width: nat, x: nat): int {
    width - Len(x)
  }

  /** The XOR/leading-zeros computation, which finds the longest common bit prefix. */
  function CommonBits(ip1: Address, ip2: Address): (n: int)
    requires |ip1| == |ip2|
    ensures n == Common(Bits(ip1), Bits(ip2))
  {
    if |ip1| == 4 then
      CommonOfLoads(ip1, ip2);
      LeadingZeros(32, Xor(BigEndian(ip1), BigEndian(ip2)))
    else
      CommonOfHalves(ip1, ip2);
      var x := Xor(BigEndian(ip1[..8]), BigEndian(ip2[..8]));
      if x != 0 then
        LeadingZeros(64, x)
      else
        64 + LeadingZeros(64, Xor(BigEndian(ip1[8..]), BigEndian(ip2[8..])))
  }

  /** The bit that a node branches on. */
  function Choose(ip: Address, bitAtByte: nat, bitAtShift: nat): (bit: nat)
    requires bitAtByte < |ip| && bitAtShift < 8
    ensures bit == Digit(Bits(ip)[8 * bitAtByte + 7 - bitAtShift])
  {
    ChosenBit(ip, bitAtByte, bitAtShift);
    And(ShiftRight(ip[bitAtByte], bitAtShift), 1)
  }

  lemma ChosenBit(ip: Address, bitAtByte: nat, bitAtShift: nat)
    requires bitAtByte < |ip| && bitAtShift < 8
    ensures And(ShiftRight(ip[bitAtByte], bitAtShift), 1) == Digit(Bits(ip)[8 * bitAtByte + 7 - bitAtShift])
  {
    FirstBitsAt(ip, 8 * |ip|, 8 * bitAtByte + 7 - bitAtShift);
    BitByShift(ip[bitAtByte], bitAtShift);
  }

  /** Byte i of the network mask for a prefix length. */
  function MaskByte(cidr: nat, i: nat): byte {
    var n := if cidr >= 8 * (i + 1) then 8 else if cidr <= 8 * i then 0 else cidr - 8 * i;
    assert Pow2(8) == 256;
    Pow2Monotone(8 - n, 8);
    256 - Pow2(8 - n)
  }

  lemma MaskedBit(b: byte, cidr: nat, i: nat, j: nat)
    requires j < 8
    ensures Bit(And(b, MaskByte(cidr, i)), 7 - j) <==> 8 * i + j < cidr && Bit(b, 7 - j)
  {
    hide And, Bit;
    BitOfAnd(b, MaskByte(cidr, i), 7 - j);
    var n := if cidr >= 8 * (i + 1) then 8 else if cidr <= 8 * i then 0 else cidr - 8 * i;
    assert Pow2(8) == 256;
    BitOfMask(8, 8 - n, 7 - j);
  }

  lemma MaskedBits(ip: Address, cidr: nat, masked: Address)
    requires |masked| == |ip| && cidr <= 8 * |ip|
    requires forall i :: 0 <= i < |ip| ==> masked[i] == And(ip[i], MaskByte(cidr, i))
    ensures forall k :: 0 <= k < 8 * |ip| ==> Bits(masked)[k] == (k < cidr && Bits(ip)[k])
    ensures Bits(masked)[..cidr] == Bits(ip)[..cidr]
  {
    forall k | 0 <= k < 8 * |ip|
      ensures Bits(masked)[k] == (k < cidr && Bits(ip)[k])
    {
      FirstBitsAt(ip, 8 * |ip|, k);
      FirstBitsAt(masked, 8 * |ip|, k);
      MaskedBit(ip[k / 8], cidr, k / 8, k % 8);
    }
  }

  // ----- relating the two

  /** The number written by a string of binary digits. */
  function Value(s: seq<bool>): nat {
    if s == [] then 0 else 2 * Value(s[..|s| - 1]) + Digit(s[|s| - 1])
  }

  lemma ValueSnoc(s: seq<bool>, d: bool)
    ensures Value(s + [d]) == 2 * Value(s) + Digit(d)
  {
    assert (s + [d])[..|s|] == s;
  }

  lemma CommonSnoc(s: seq<bool>, d: bool, t: seq<bool>, e: bool)
    requires |s| == |t|
    ensures Common(s + [d], t + [e]) ==
            if Common(s, t) < |s| then Common(s, t) else if d == e then |s| + 1 else |s|
  {
    var m := Common(s, t);
    var s', t' := s + [d], t + [e];
    var n := if m < |s| then m else if d == e then |s| + 1 else |s|;
    assert s[..m] == t[..m];
    assert s'[..m] == s[..m] && t'[..m] == t[..m];
    if m == |s| {
      assert s == s[..m] && t == t[..m];
    }
    assert s'[..n] == t'[..n];
    CommonIs(s', t', n);
  }

  lemma XorOfSnoc(s: seq<bool>, d: bool, t: seq<bool>, e: bool)
    ensures Xor(Value(s + [d]), Value(t + [e])) == 2 * Xor(Value(s), Value(t)) + Digit(d != e)
  {
    ValueSnoc(s, d);
    ValueSnoc(t, e);
    XorStep(Value(s + [d]), Value(s), d, Value(t + [e]), Value(t), e);
  }

  lemma {:induction false} LenOfXor(s: seq<bool>, t: seq<bool>)
    requires |s| == |t|
    ensures Len(Xor(Value(s), Value(t))) == |s| - Common(s, t)
  {
    if s != [] {
      var n := |s| - 1;
      var s', d, t', e := s[..n], s[n], t[..n], t[n];
      assert s' + [d] == s && t' + [e] == t;
      var x := Xor(Value(s'), Value(t'));
      assert Len(x) == n - Common(s', t') by { LenOfXor(s', t'); }
      assert Xor(Value(s), Value(t)) == 2 * x + Digit(d != e) by { XorOfSnoc(s', d, t', e); }
      LenStep(x, d != e);
      CommonSnoc(s', d, t', e);
    }
  }

  lemma LenStep(x: nat, d: bool)
    ensures Len(2 * x + Digit(d)) == if x != 0 then 1 + Len(x) else if d then 1 else 0
    ensures Len(x) == 0 <==> x == 0
  {
    assert (2 * x + Digit(d)) / 2 == x;
  }

  lemma CommonFull(s: seq<bool>, t: seq<bool>)
    requires |s| == |t|
    ensures Common(s, t) == |s| <==> s == t
  {
    assert s[..|s|] == s && t[..|t|] == t;
    CommonAtLeast(s, t, |s|);
  }

  lemma XorStep(a: nat, v: nat, d: bool, b: nat, w: nat, e: bool)
    requires a == 2 * v + Digit(d) && b == 2 * w + Digit(e)
    ensures Xor(a, b) == 2 * Xor(v, w) + Digit(d != e)
  {
    assert a / 2 == v && b / 2 == w;
  }

  /** The k lowest binary digits of x, most significant first. */
  function Digits(x: nat, k: nat): (s: seq<bool>)
    ensures |s| == k
  {
    if k == 0 then [] else Digits(x / 2, k - 1) + [x % 2 == 1]
  }

  lemma {:induction false} DigitsAreBits(x: nat, k: nat, i: nat)
    requires i < k
    ensures Digits(x, k)[i] == Bit(x, k - 1 - i)
  {
    if i < k - 1 {
      DigitsAreBits(x / 2, k - 1, i);
    }
  }

  lemma DoubleProduct(p: nat, v: nat)
    ensures 2 * (p * v) == (2 * p) * v
  {
  }

  lemma {:induction false} ValueOfDigits(s: seq<bool>, x: nat, k: nat)
    requires x < Pow2(k)
    ensures Value(s + Digits(x, k)) == Pow2(k) * Value(s) + x
  {
    if k == 0 {
      assert s + Digits(x, k) == s;
    } else {
      var t, d := s + Digits(x / 2, k - 1), x % 2 == 1;
      assert Value(s + Digits(x, k)) == 2 * Value(t) + Digit(d) by {
        assert s + Digits(x, k) == t + [d];
        ValueSnoc(t, d);
      }
      assert Value(t) == Pow2(k - 1) * Value(s) + x / 2 by {
        ValueOfDigits(s, x / 2, k - 1);
      }
      DoubleProduct(Pow2(k - 1), Value(s));
    }
  }

  lemma ValueOfByte(s: seq<bool>, b: byte)
    ensures Value(s + Bits([b])) == 256 * Value(s) + b
  {
    assert Bits([b]) == Digits(b, 8) by {
      BitsAt([b]);
      forall i | 0 <= i < 8
        ensures Bits([b])[i] == Digits(b, 8)[i]
      {
        DigitsAreBits(b, 8, i);
      }
    }
    assert Pow2(8) == 256;
    ValueOfDigits(s, b, 8);
  }

  lemma {:induction false} BigEndianIsValue(b: seq<byte>)
    ensures BigEndian(b) == Value(Bits(b))
  {
    if b != [] {
      var n := |b| - 1;
      BigEndianIsValue(b[..n]);
      ValueOfByte(Bits(b[..n]), b[n]);
      assert b == b[..n] + [b[n]];
      BitsConcat(b[..n], [b[n]]);
    }
  }

  lemma {:induction false} CommonConcatSame(s: seq<bool>, s': seq<bool>, t': seq<bool>)
    requires |s'| == |t'|
    ensures Common(s + s', s + t') == |s| + Common(s', t')
  {
    if s == [] {
      assert s + s' == s' && s + t' == t';
    } else {
      CommonConcatSame(s[1..], s', t');
      assert (s + s')[1..] == s[1..] + s';
      assert (s + t')[1..] == s[1..] + t';
    }
  }

  lemma CommonConcatApart(s: seq<bool>, t: seq<bool>, s': seq<bool>, t': seq<bool>)
    requires |s| == |t| && |s'| == |t'| && s != t
    ensures Common(s + s', t + t') == Common(s, t)
  {
    var c := Common(s, t);
    CommonFull(s, t);
    assert (s + s')[..c] == s[..c];
    assert (t + t')[..c] == t[..c];
    CommonIs(s + s', t + t', c);
  }

  lemma CommonOfLoads(a: seq<byte>, b: seq<byte>)
    requires |a| == |b|
    ensures LeadingZeros(8 * |a|, Xor(BigEndian(a), BigEndian(b))) == Common(Bits(a), Bits(b))
    ensures Xor(BigEndian(a), BigEndian(b)) == 0 <==> Bits(a) == Bits(b)
  {
    BigEndianIsValue(a);
    BigEndianIsValue(b);
    LenOfXor(Bits(a), Bits(b));
    LenStep(Xor(BigEndian(a), BigEndian(b)), false);
    CommonFull(Bits(a), Bits(b));
  }

  lemma BitsConcat(a: seq<byte>, b: seq<byte>)
    ensures Bits(a + b) == Bits(a) + Bits(b)
  {
    BitsAt(a);
    BitsAt(b);
    BitsAt(a + b);
  }

  lemma CommonOfHalves(ip1: Address, ip2: Address)
    requires |ip1| == |ip2| == 16
    ensures var x, y := Xor(BigEndian(ip1[..8]), BigEndian(ip2[..8])), Xor(BigEndian(ip1[8..]), BigEndian(ip2[8..]));
            Common(Bits(ip1), Bits(ip2)) == if x != 0 then LeadingZeros(64, x) else 64 + LeadingZeros(64, y)
  {
    var h1, l1, h2, l2 := ip1[..8], ip1[8..], ip2[..8], ip2[8..];
    CommonOfLoads(h1, h2);
    CommonOfLoads(l1, l2);
    assert ip1 == h1 + l1 && ip2 == h2 + l2;
    BitsConcat(h1, l1);
    BitsConcat(h2, l2);
    if Bits(h1) == Bits(h2) {
      CommonConcatSame(Bits(h1), Bits(l1), Bits(l2));
    } else {
      CommonConcatApart(Bits(h1), Bits(h2), Bits(l1), Bits(l2));
    }
  }

  lemma {:induction false} BitOfMask(p: nat, m: nat, j: nat)
    requires m <= p && j < p
    ensures Pow2(p) >= Pow2(m)
    ensures Bit(Pow2(p) - Pow2(m), j) <==> j >= m
  {
    Pow2Monotone(m, p);
    if m == 0 {
      if j > 0 {
        BitOfMask(p - 1, 0, j - 1);
      }
    } else if j > 0 {
      BitOfMask(p - 1, m - 1, j - 1);
    }
  }
}
