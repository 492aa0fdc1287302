/** The accounting pass over a merged packet, and the split that undoes the merge. */
module GroRoundTrip {
  import opened Bitwise
  import opened Checksum
  import opened PacketFields
  import opened Gso
  import opened VirtioRead
  import opened GroGroups

  function CsumOffset(item: Item): nat {
    if item.tcp then 16 else 6
  }

  /** The virtio header written in front of a merged packet. */
  function HdrOf(item: Item): VirtioNetHdr
    requires item.Sized()
  {
    VirtioNetHdr(true, if !item.tcp then GsoUdpL4 else if item.key.isV6 then GsoTcpV6 else GsoTcpV4,
                 item.iphLen + item.thLen, item.gsoSize, item.iphLen, CsumOffset(item))
  }

  /** The accounting pass rewrites this byte. */
  predicate Rewritten(k: nat, item: Item) {
    || (if item.key.isV6 then 4 <= k < 6 else 2 <= k < 4 || 10 <= k < 12)
    || (!item.tcp && item.iphLen + 4 <= k < item.iphLen + 6)
    || item.iphLen + CsumOffset(item) <= k < item.iphLen + CsumOffset(item) + 2
  }

  /** What accounting promises: length fields that fit the merged packet, a valid
      IPv4 header checksum, the pseudo header's sum in the transport checksum
      field, and everything else as it was. */
  ghost predicate Accounted(out: seq<byte>, packet: seq<byte>, item: Item)
    requires item.Sized() && item.HeadersLen() <= |packet| <= 0xffff
  {
    && |out| == |packet|
    && (forall k :: 0 <= k < |out| && !Rewritten(k, item) ==> out[k] == packet[k])
    && (if item.key.isV6 then U16(out, 4) == |out| - 40 else U16(out, 2) == |out| && Ones(Sum(out[..20])) == 0xffff)
    && (!item.tcp ==> U16(out, item.iphLen + 4) == |out| - item.iphLen)
    && Partial(out, item.iphLen, CsumOffset(item), item.Protocol(), item.key.isV6)
  }

  /** The lengths and the IPv4 header checksum. */
  method AccountIp(packet: seq<byte>, isV6: bool) returns (out: seq<byte>)
    requires MinIpHeader(isV6) <= |packet| <= 0xffff
    ensures |out| == |packet|
    ensures forall k :: 0 <= k < |out| && !(if isV6 then 4 <= k < 6 else 2 <= k < 4 || 10 <= k < 12) ==>
      out[k] == packet[k]
    ensures if isV6 then U16(out, 4) == |out| - 40 else U16(out, 2) == |out| && Ones(Sum(out[..20])) == 0xffff
  {
    if isV6 {
      out := Put16(packet, 4, |packet| - 40);
    } else {
      out := packet[10 := 0][11 := 0];
      out := Put16(out, 2, |out|);
      var csum := Checksum.Checksum(out[..20], 0);
      SealHeader(out[..20]);
      ghost var sealed := Put16(out[..20], 10, Complement(csum));
      out := Put16(out, 10, Complement(csum));
      assert out[..20] == sealed;
    }
  }

  /** The lengths and the IPv4 header checksum, before the transport checksum is written. */
  ghost predicate LengthsFit(out: seq<byte>, item: Item)
    requires item.Sized() && item.HeadersLen() <= |out| <= 0xffff
  {
    && (if item.key.isV6 then U16(out, 4) == |out| - 40 else U16(out, 2) == |out| && Ones(Sum(out[..20])) == 0xffff)
    && (!item.tcp ==> U16(out, item.iphLen + 4) == |out| - item.iphLen)
  }

  method AccountLengths(packet: seq<byte>, item: Item) returns (out: seq<byte>)
    requires item.Sized() && item.HeadersLen() <= |packet| <= 0xffff
    ensures |out| == |packet| && LengthsFit(out, item)
    ensures forall k :: 0 <= k < |out| && !Rewritten(k, item) ==> out[k] == packet[k]
  {
    hide Ones, Sum;
    var ip := AccountIp(packet, item.key.isV6);
    out := ip;
    if !item.tcp {
      out := Put16(out, item.iphLen + 4, |out| - item.iphLen);
      assert out[..20] == ip[..20];
    }
  }

  /** Writing the transport checksum field changes none of that. */
  lemma FieldKeeps(out: seq<byte>, item: Item, v: uint16)
    requires item.Sized() && item.HeadersLen() <= |out| <= 0xffff && LengthsFit(out, item)
    ensures var r := Put16(out, item.iphLen + CsumOffset(item), v);
      && LengthsFit(r, item) && U16(r, item.iphLen + CsumOffset(item)) == v
      && Src(r, item.key.isV6) == Src(out, item.key.isV6) && Dst(r, item.key.isV6) == Dst(out, item.key.isV6)
  {
    hide Ones, Sum;
    var r := Put16(out, item.iphLen + CsumOffset(item), v);
    assert r[..20] == out[..20];
  }

  method Account(packet: seq<byte>, item: Item) returns (out: seq<byte>)
    requires item.Sized() && item.HeadersLen() <= |packet| <= 0xffff
    ensures Accounted(out, packet, item)
  {
    hide Ones, Sum, WordSum;
    var isV6, iphLen := item.key.isV6, item.iphLen;
    var out' := AccountLengths(packet, item);
    var psum := PseudoHeaderChecksumNoFold(item.Protocol(), Src(out', isV6), Dst(out', isV6), |out'| - iphLen);
    var csum := Checksum.Checksum([], psum);
    EmptySum();
    PseudoFolds(csum, psum, Src(out', isV6), Dst(out', isV6), item.Protocol() + (|out'| - iphLen));
    FieldKeeps(out', item, csum);
    hide Src, Dst;
    out := Put16(out', iphLen + CsumOffset(item), csum);
  }

  lemma EmptySum()
    ensures Sum([]) == 0
  {
  }

  lemma PseudoFolds(csum: uint16, psum: nat, src: seq<byte>, dst: seq<byte>, n: nat)
    requires psum == n + WordSum(src) + WordSum(dst) && csum == Ones(psum)
    ensures csum == Ones(n + Sum(src) + Sum(dst))
  {
    PseudoIsSum(src, dst, n, psum, n + Sum(src) + Sum(dst));
  }

  // ----- the header is read back as it was written

  lemma HeaderReadBack(out: seq<byte>, packet: seq<byte>, item: Item, orig: seq<seq<byte>>, ms: seq<nat>)
    requires IsGroup(packet, item, orig, ms) && Accounted(out, packet, item)
    ensures Plausible(out, HdrOf(item)) && Check(out, HdrOf(item)) == Passed(HdrOf(item))
    ensures HdrOf(item).Describes(|out|, item.key.isV6) && Version(out) == (if item.key.isV6 then 6 else 4)
  {
    var first := orig[ms[0]];
    assert Belongs(orig, ms[0], item);
    assert out[0] == first[0];
    assert item.tcp ==> out[item.iphLen + 12] == first[item.iphLen + 12];
    CheckExact(out, HdrOf(item));
  }

  // ----- counting and cutting pieces

  lemma PieceCount(g: nat, m: nat, n: nat, len: nat)
    requires 1 <= m && g * (m - 1) < len <= g * m && len <= g * n && (n > 0 ==> g * (n - 1) < len)
    ensures m == n
  {
    if m < n {
      Spread(g, m, n - 1);
    } else if n < m {
      Spread(g, n, m - 1);
    }
  }

  lemma {:induction false} Spread(g: nat, m: nat, n: nat)
    requires m <= n
    ensures g * m <= g * n
  {
    if m < n {
      Spread(g, m, n - 1);
      Product(g, n - 1);
    }
  }

  lemma SlicePrefix(a: seq<byte>, b: seq<byte>, lo: nat, hi: nat)
    requires lo <= hi <= |a|
    ensures (a + b)[lo..hi] == a[lo..hi]
  {
  }

  /** Piece j of the joined payloads is member j's payload. */
  lemma {:induction false} JoinedPiece(orig: seq<seq<byte>>, ms: seq<nat>, h: nat, g: nat, j: nat, at: nat)
    requires Long(orig, ms, h) && Even(orig, ms, h, g) && j < |ms| && at == g * j
    ensures at + |Payload(orig, ms[j], h)| <= |Joined(orig, ms, h)|
    ensures Joined(orig, ms, h)[at..at + |Payload(orig, ms[j], h)|] == Payload(orig, ms[j], h)
    ensures at + |Payload(orig, ms[j], h)| == if at + g < |Joined(orig, ms, h)| then at + g else |Joined(orig, ms, h)|
    decreases |ms|
  {
    hide Payload;
    var n := |ms| - 1;
    JoinedLength(orig, ms, h, g);
    var init, last := ms[..n], Payload(orig, ms[n], h);
    assert Joined(orig, ms, h) == Joined(orig, init, h) + last;
    if j < n {
      assert Even(orig, init, h, g);
      JoinedPiece(orig, init, h, g, j, at);
      SlicePrefix(Joined(orig, init, h), last, at, at + |Payload(orig, ms[j], h)|);
    }
  }

  // ----- the round trip

  /** The packet that comes out is the one that went in, as far as merging promises: same
      addresses, ports and protocol, same length, same payload, same sequence and
      acknowledgement number, the same in all that merging compares, its length field
      right, and its checksums verify. */
  ghost predicate Restored(p: seq<byte>, orig: seq<seq<byte>>, k: nat, item: Item)
    requires Belongs(orig, k, item)
  {
    && |p| == |orig[k]|
    && p[item.HeadersLen()..] == Payload(orig, k, item.HeadersLen())
    && SameEnds(p, item.iphLen, orig[k], item.iphLen, item.tcp, item.key.isV6)
    && p[ProtocolAt(item.key.isV6)] == orig[k][ProtocolAt(item.key.isV6)]
    && (if item.key.isV6 then U16(p, 4) == |p| - 40 else U16(p, 2) == |p|)
    && (item.tcp ==> U32(p, item.iphLen + 4) == SeqNum(orig, k, item))
    && Kin(p, orig[k], item) && (!item.key.isV6 ==> Ones(Sum(p[..20])) == 0xffff)
    && Verifies(p, item.iphLen, item.Protocol(), item.key.isV6)
  }

  /** The split rewrites this byte of the headers. */
  predicate SplitRewrites(k: nat, item: Item) {
    || (if item.key.isV6 then 4 <= k < 6 else 2 <= k < 6 || 10 <= k < 12)
    || item.iphLen + 4 <= k < item.iphLen + 8
    || (item.tcp && (k == item.iphLen + TCP_FLAGS_OFFSET || item.iphLen + 16 <= k < item.iphLen + 18))
  }

  /** p is a segment of the accounted packet of a group. */
  ghost predicate Comes(p: seq<byte>, out: seq<byte>, packet: seq<byte>, item: Item, orig: seq<seq<byte>>,
      ms: seq<nat>, i: nat, lo: nat, hi: nat) {
    && IsGroup(packet, item, orig, ms) && Accounted(out, packet, item)
    && HdrOf(item).Describes(|out|, item.key.isV6) && item.HeadersLen() <= lo <= hi <= |out|
    && IsSegment(p, out, HdrOf(item), i, lo, hi, item.key.isV6)
  }

  /** What a segment keeps of its packet's headers. */
  lemma SegmentByte(p: seq<byte>, out: seq<byte>, item: Item, i: nat, lo: nat, hi: nat, k: nat)
    requires item.Sized() && HdrOf(item).Describes(|out|, item.key.isV6) && item.HeadersLen() <= lo <= hi <= |out|
    requires IsSegment(p, out, HdrOf(item), i, lo, hi, item.key.isV6)
    requires k < item.HeadersLen() && !SplitRewrites(k, item)
    ensures p[k] == out[k]
  {
    var hdr := HdrOf(item);
    if k < item.iphLen {
      var ip, ip' := p[..item.iphLen], out[..item.iphLen];
      assert ip[k] == ip'[k];
    } else {
      var th, th' := Transport(p, hdr), Transport(out, hdr);
      assert th[k - item.iphLen] == th'[k - item.iphLen];
    }
  }

  lemma SegmentSeq(p: seq<byte>, out: seq<byte>, item: Item, i: nat, lo: nat, hi: nat)
    requires item.Sized() && HdrOf(item).Describes(|out|, item.key.isV6) && item.HeadersLen() <= lo <= hi <= |out|
    requires item.tcp && IsSegment(p, out, HdrOf(item), i, lo, hi, item.key.isV6)
    ensures U32(p, item.iphLen + 4) == (U32(out, item.iphLen + 4) + item.gsoSize * i) % 0x1_0000_0000
  {
    SliceU32(p, item.iphLen, item.HeadersLen(), 4);
    SliceU32(out, item.iphLen, item.HeadersLen(), 4);
  }

  lemma SliceU32(b: seq<byte>, lo: nat, hi: nat, at: nat)
    requires lo + at + 4 <= hi <= |b|
    ensures U32(b[lo..hi], at) == U32(b, lo + at)
  {
  }

  /** A header byte that accounting does not rewrite is the first member's. */
  lemma GroupByte(out: seq<byte>, packet: seq<byte>, item: Item, orig: seq<seq<byte>>, ms: seq<nat>, k: nat)
    requires IsGroup(packet, item, orig, ms) && Accounted(out, packet, item)
    requires k < item.HeadersLen() && !Rewritten(k, item) && !(item.tcp && k == item.iphLen + TCP_FLAGS_OFFSET)
    ensures Belongs(orig, ms[0], item) && out[k] == orig[ms[0]][k]
  {
    assert Belongs(orig, ms[0], item);
    assert out[k] == packet[k];
  }

  /** The key is read from bytes that neither pass rewrites. */
  lemma SameKey(p: seq<byte>, q: seq<byte>, item: Item)
    requires item.Sized() && item.HeadersLen() <= |p| && item.HeadersLen() <= |q|
    requires forall k :: 0 <= k < item.HeadersLen() && !SplitRewrites(k, item) ==> p[k] == q[k]
    ensures KeyOf(p, item.iphLen, item.tcp, item.key.isV6) == KeyOf(q, item.iphLen, item.tcp, item.key.isV6)
  {
    var isV6 := item.key.isV6;
    assert Src(p, isV6) == Src(q, isV6) && Dst(p, isV6) == Dst(q, isV6);
  }

  lemma SegmentLong(p: seq<byte>, out: seq<byte>, item: Item, i: nat, lo: nat, hi: nat)
    requires item.Sized() && HdrOf(item).Describes(|out|, item.key.isV6) && item.HeadersLen() <= lo <= hi <= |out|
    requires IsSegment(p, out, HdrOf(item), i, lo, hi, item.key.isV6)
    ensures |p| == item.HeadersLen() + (hi - lo)
  {
  }

  /** The headers of a segment are the first member's, but for what the split rewrites. */
  lemma HeaderKept(p: seq<byte>, out: seq<byte>, packet: seq<byte>, item: Item, orig: seq<seq<byte>>, ms: seq<nat>,
      i: nat, lo: nat, hi: nat)
    requires Comes(p, out, packet, item, orig, ms, i, lo, hi) && |p| >= item.HeadersLen()
    ensures Belongs(orig, ms[0], item)
    ensures forall k :: 0 <= k < item.HeadersLen() && !SplitRewrites(k, item) ==> p[k] == orig[ms[0]][k]
  {
    hide HeadersOf, Even, KeyOf, InSequence, Joined, Kindred, IsSegment, Accounted;
    assert Belongs(orig, ms[0], item);
    forall k | 0 <= k < item.HeadersLen() && !SplitRewrites(k, item)
      ensures p[k] == orig[ms[0]][k]
    {
      SegmentByte(p, out, item, i, lo, hi, k);
      GroupByte(out, packet, item, orig, ms, k);
    }
  }

  lemma KinThrough(p: seq<byte>, first: seq<byte>, q: seq<byte>, item: Item)
    requires Kin(first, q, item) && item.HeadersLen() <= |p|
    requires forall k :: 0 <= k < item.HeadersLen() && !SplitRewrites(k, item) ==> p[k] == first[k]
    ensures Kin(p, q, item)
  {
    if item.tcp {
      assert TcpOptions(p, item) == TcpOptions(first, item);
    }
  }

  lemma KinKept(p: seq<byte>, out: seq<byte>, packet: seq<byte>, item: Item, orig: seq<seq<byte>>, ms: seq<nat>,
      i: nat, lo: nat, hi: nat)
    requires Comes(p, out, packet, item, orig, ms, i, lo, hi) && i < |ms|
    ensures Belongs(orig, ms[i], item) && Kin(p, orig[ms[i]], item)
  {
    hide HeadersOf, Even, KeyOf, InSequence, Joined, IsSegment, Accounted, Kin;
    var first := orig[ms[0]];
    assert Belongs(orig, ms[0], item) && Belongs(orig, ms[i], item) && Kin(first, orig[ms[i]], item);
    SegmentLong(p, out, item, i, lo, hi);
    HeaderKept(p, out, packet, item, orig, ms, i, lo, hi);
    KinThrough(p, first, orig[ms[i]], item);
  }

  lemma KeyKept(p: seq<byte>, out: seq<byte>, packet: seq<byte>, item: Item, orig: seq<seq<byte>>, ms: seq<nat>,
      i: nat, lo: nat, hi: nat)
    requires Comes(p, out, packet, item, orig, ms, i, lo, hi) && i < |ms|
    ensures Belongs(orig, ms[i], item) && |p| >= item.HeadersLen()
    ensures SameEnds(p, item.iphLen, orig[ms[i]], item.iphLen, item.tcp, item.key.isV6)
    ensures p[ProtocolAt(item.key.isV6)] == orig[ms[i]][ProtocolAt(item.key.isV6)]
  {
    SegmentLong(p, out, item, i, lo, hi);
    HeaderKept(p, out, packet, item, orig, ms, i, lo, hi);
    SameKey(p, orig[ms[0]], item);
    hide IsSegment, Accounted, HeadersOf, Even, InSequence, Joined, Kindred, KeyOf, SameEnds;
    assert Belongs(orig, ms[i], item);
    FlowExact(p, item.iphLen, orig[ms[i]], item.iphLen, item.tcp, item.key.isV6);
  }

  lemma LengthKept(p: seq<byte>, out: seq<byte>, item: Item, i: nat, lo: nat, hi: nat)
    requires item.Sized() && HdrOf(item).Describes(|out|, item.key.isV6) && item.HeadersLen() <= lo <= hi <= |out|
    requires IsSegment(p, out, HdrOf(item), i, lo, hi, item.key.isV6)
    ensures if item.key.isV6 then U16(p, 4) == |p| - 40 else U16(p, 2) == |p|
  {
    SliceU16(p, item.iphLen, if item.key.isV6 then 4 else 2);
  }

  lemma SliceU16(b: seq<byte>, hi: nat, at: nat)
    requires at + 2 <= hi <= |b|
    ensures U16(b[..hi], at) == U16(b, at)
  {
  }

  lemma FirstInSequence(item: Item, orig: seq<seq<byte>>, ms: seq<nat>)
    requires Members(item, orig, ms) && item.tcp
    ensures Belongs(orig, ms[0], item) && SeqNum(orig, ms[0], item) == item.sentSeq
  {
    hide Even, Kindred, KeyOf, SeqNum;
    assert SeqNum(orig, ms[0], item) == (item.sentSeq + item.gsoSize * 0) % 0x1_0000_0000;
  }

  /** The merged packet starts with the first member's sequence number, which is the item's. */
  lemma FirstSeq(out: seq<byte>, packet: seq<byte>, item: Item, orig: seq<seq<byte>>, ms: seq<nat>)
    requires IsGroup(packet, item, orig, ms) && Accounted(out, packet, item) && item.tcp
    ensures U32(out, item.iphLen + 4) == item.sentSeq
  {
    FirstInSequence(item, orig, ms);
    hide InSequence, Even, Joined, Kindred, KeyOf, HeadersOf, Accounted;
    forall k | item.iphLen + 4 <= k < item.iphLen + 8
      ensures out[k] == orig[ms[0]][k]
    {
      GroupByte(out, packet, item, orig, ms, k);
    }
  }

  lemma SeqKept(p: seq<byte>, out: seq<byte>, packet: seq<byte>, item: Item, orig: seq<seq<byte>>, ms: seq<nat>,
      i: nat, lo: nat, hi: nat)
    requires Comes(p, out, packet, item, orig, ms, i, lo, hi) && item.tcp && i < |ms|
    ensures Belongs(orig, ms[i], item) && U32(p, item.iphLen + 4) == SeqNum(orig, ms[i], item)
  {
    hide IsSegment, Accounted, HeadersOf, Even, KeyOf, U32;
    FirstSeq(out, packet, item, orig, ms);
    SegmentSeq(p, out, item, i, lo, hi);
    assert Belongs(orig, ms[i], item);
  }

  lemma PieceOfPacket(out: seq<byte>, packet: seq<byte>, item: Item, orig: seq<seq<byte>>, ms: seq<nat>, i: nat,
      lo: nat, hi: nat)
    requires IsGroup(packet, item, orig, ms) && Accounted(out, packet, item) && i < |ms|
    requires lo == Lo(HdrOf(item), i) && hi == Hi(HdrOf(item), i, |out|)
    ensures lo <= hi <= |out| && Belongs(orig, ms[i], item) && out[lo..hi] == Payload(orig, ms[i], item.HeadersLen())
  {
    hide InSequence, KeyOf, Kindred, Accounted, Even, Joined;
    var h, g := item.HeadersLen(), item.gsoSize;
    assert Belongs(orig, ms[i], item);
    PayloadUntouched(out, packet, item);
    SameLength(out, packet, item);
    JoinedPiece(orig, ms, h, g, i, g * i);
    SliceOfTail(out, h, lo, hi);
  }

  lemma SameLength(out: seq<byte>, packet: seq<byte>, item: Item)
    requires item.Sized() && item.HeadersLen() <= |packet| <= 0xffff && Accounted(out, packet, item)
    ensures |out| == |packet|
  {
  }

  lemma SliceOfTail(b: seq<byte>, h: nat, lo: nat, hi: nat)
    requires h <= lo <= hi <= |b|
    ensures b[lo..hi] == b[h..][lo - h..hi - h]
  {
  }

  lemma SegmentSums(p: seq<byte>, out: seq<byte>, item: Item, i: nat, lo: nat, hi: nat)
    requires item.Sized() && HdrOf(item).Describes(|out|, item.key.isV6) && item.HeadersLen() <= lo <= hi <= |out|
    requires IsSegment(p, out, HdrOf(item), i, lo, hi, item.key.isV6)
    ensures |p| == item.HeadersLen() + (hi - lo) && p[item.HeadersLen()..] == out[lo..hi]
    ensures Verifies(p, item.iphLen, item.Protocol(), item.key.isV6)
    ensures !item.key.isV6 ==> Ones(Sum(p[..20])) == 0xffff
  {
    hide Verifies, Ones, Sum;
  }

  /** Segment i of the accounted packet restores member i. */
  lemma SegmentRestores(p: seq<byte>, out: seq<byte>, packet: seq<byte>, item: Item, orig: seq<seq<byte>>,
      ms: seq<nat>, i: nat, lo: nat, hi: nat)
    requires Comes(p, out, packet, item, orig, ms, i, lo, hi) && i < |ms|
    requires lo == Lo(HdrOf(item), i) && hi == Hi(HdrOf(item), i, |out|)
    ensures Belongs(orig, ms[i], item) && Restored(p, orig, ms[i], item)
  {
    hide IsSegment, Accounted, HeadersOf, Even, InSequence, Joined, Kindred, KeyOf, SameEnds, Kin, U16, U32, SeqNum;
    KeyKept(p, out, packet, item, orig, ms, i, lo, hi);
    KinKept(p, out, packet, item, orig, ms, i, lo, hi);
    LengthKept(p, out, item, i, lo, hi);
    SegmentSums(p, out, item, i, lo, hi);
    PieceOfPacket(out, packet, item, orig, ms, i, lo, hi);
    if item.tcp {
      SeqKept(p, out, packet, item, orig, ms, i, lo, hi);
    }
  }

  // ----- flags

  /** The bits of ACK, and of ACK with PSH. */
  lemma AckBits(psh: bool, k: nat)
    requires k < 8
    ensures Bit(AckFlags(psh), k) <==> k == 4 || (psh && k == 3)
  {
    assert Bit(0x10, k) <==> k == 4 by {
      assert Pow2(4) == 0x10;
      BitOfPow2(4, k);
    }
    assert Bit(0x18, 0) == false && Bit(0x18, 1) == Bit(0xc, 0) && Bit(0x18, 2) == Bit(0xc, 1) == Bit(0x6, 0);
    if k >= 3 {
      assert Bit(0x18, k) == Bit(0xc, k - 1) == Bit(0x6, k - 2) == Bit(0x3, k - 3);
    }
    if k >= 5 {
      assert Bit(0x3, k - 3) == Bit(0x1, k - 4) == Bit(0, k - 5);
      ZeroHasNoBit(k - 5);
    }
  }

  lemma {:induction false} BitsFix(x: nat, y: nat, n: nat)
    requires x < Pow2(n) && y < Pow2(n) && forall k :: 0 <= k < n ==> (Bit(x, k) <==> Bit(y, k))
    ensures x == y
    decreases n
  {
    if n > 0 {
      forall k | 0 <= k < n - 1 ensures Bit(x / 2, k) <==> Bit(y / 2, k) {
        assert Bit(x, k + 1) == Bit(x / 2, k) && Bit(y, k + 1) == Bit(y / 2, k);
      }
      BitsFix(x / 2, y / 2, n - 1);
      assert Bit(x, 0) <==> Bit(y, 0);
    }
  }

  /** Cutting PSH from a segment that is not the last leaves ACK; the last keeps what it has. */
  lemma CutFlags(flags: byte, psh: bool, last: bool)
    requires FlagsCut(flags, AckFlags(psh), last)
    ensures flags == AckFlags(psh && last)
  {
    forall k | 0 <= k < 8 ensures Bit(flags, k) <==> Bit(AckFlags(psh && last), k) {
      AckBits(psh, k);
      AckBits(psh && last, k);
    }
    assert Pow2(8) == 0x100;
    BitsFix(flags, AckFlags(psh && last), 8);
  }

  lemma LastPiece(packet: seq<byte>, item: Item, orig: seq<seq<byte>>, ms: seq<nat>, out: seq<byte>, i: nat)
    requires IsGroup(packet, item, orig, ms) && Accounted(out, packet, item) && i < |ms|
    ensures Hi(HdrOf(item), i, |out|) == |out| <==> i == |ms| - 1
  {
    var g, m := item.gsoSize, |ms| - 1;
    JoinedLength(orig, ms, item.HeadersLen(), g);
    PayloadUntouched(out, packet, item);
    Product(g, i);
    if i < m {
      Spread(g, i + 1, m);
    } else {
      assert g * i == g * m;
    }
  }

  /** The flags of a segment are those of its member, unless the member had PSH set and
      the group's first member came after it. */
  lemma FlagsKept(p: seq<byte>, out: seq<byte>, packet: seq<byte>, item: Item, orig: seq<seq<byte>>, ms: seq<nat>,
      i: nat, lo: nat, hi: nat)
    requires Comes(p, out, packet, item, orig, ms, i, lo, hi) && i < |ms| && item.tcp && |p| >= item.HeadersLen()
    requires Flagged(packet, item, orig, ms) && (hi == |out| <==> i == |ms| - 1)
    ensures Belongs(orig, ms[i], item) && (Flags(p, item) == Flags(orig[ms[i]], item) <==>
      Flags(orig[ms[i]], item) == AckFlags(false) || ms[0] <= ms[i])
  {
    var psh := item.pshSet && ms[0] <= ms[|ms| - 1];
    assert Flags(out, item) == AckFlags(psh);
    SegmentFlags(p, out, item, i, lo, hi);
    hide IsSegment, Accounted, HeadersOf, Even, InSequence, Joined, Kindred, KeyOf, FlagsCut;
    CutFlags(Flags(p, item), psh, hi == |out|);
    assert Belongs(orig, ms[i], item);
  }

  lemma SegmentFlags(p: seq<byte>, out: seq<byte>, item: Item, i: nat, lo: nat, hi: nat)
    requires item.Sized() && HdrOf(item).Describes(|out|, item.key.isV6) && item.HeadersLen() <= lo <= hi <= |out|
    requires item.tcp && IsSegment(p, out, HdrOf(item), i, lo, hi, item.key.isV6)
    ensures FlagsCut(Flags(p, item), Flags(out, item), hi == |out|)
  {
    var th, th' := Transport(p, HdrOf(item)), Transport(out, HdrOf(item));
    assert th[TCP_FLAGS_OFFSET] == Flags(p, item) && th'[TCP_FLAGS_OFFSET] == Flags(out, item);
  }

  /** Packet p has the flags of input k. */
  predicate SameFlags(p: seq<byte>, orig: seq<seq<byte>>, k: nat, item: Item) {
    && item.Sized() && item.tcp && k < |orig| && item.HeadersLen() <= |p| && item.HeadersLen() <= |orig[k]|
    && Flags(p, item) == Flags(orig[k], item)
  }

  /** The last member has no PSH, or the first did not come after it. */
  ghost predicate PshStays(item: Item, orig: seq<seq<byte>>, ms: seq<nat>)
    requires Members(item, orig, ms) && item.tcp
  {
    Flags(orig[ms[|ms| - 1]], item) == AckFlags(false) || ms[0] <= ms[|ms| - 1]
  }

  lemma SegmentFlagsBack(p: seq<byte>, out: seq<byte>, packet: seq<byte>, item: Item, orig: seq<seq<byte>>,
      ms: seq<nat>, i: nat, lo: nat, hi: nat)
    requires Comes(p, out, packet, item, orig, ms, i, lo, hi) && i < |ms| && item.tcp
    requires Flagged(packet, item, orig, ms) && lo == Lo(HdrOf(item), i) && hi == Hi(HdrOf(item), i, |out|)
    ensures SameFlags(p, orig, ms[i], item) <==> i < |ms| - 1 || PshStays(item, orig, ms)
  {
    LastPiece(packet, item, orig, ms, out, i);
    SegmentLong(p, out, item, i, lo, hi);
    hide IsSegment, Accounted, HeadersOf, Even, InSequence, Joined, Kindred, KeyOf, Lo, Hi;
    FlagsKept(p, out, packet, item, orig, ms, i, lo, hi);
  }

  /** Merging and splitting give every TCP packet its flags back if and only if the last
      member of the group had no PSH, or the first did not come after it. */
  lemma FlagsRoundTrip(packet: seq<byte>, item: Item, orig: seq<seq<byte>>, ms: seq<nat>, out: seq<byte>,
      packets: seq<seq<byte>>)
    requires IsGroup(packet, item, orig, ms) && Flagged(packet, item, orig, ms) && Accounted(out, packet, item)
    requires HdrOf(item).Describes(|out|, item.key.isV6) && IsSplit(packets, out, HdrOf(item), item.key.isV6)
    requires item.tcp && |packets| == |ms|
    ensures (forall i :: 0 <= i < |ms| ==> SameFlags(packets[i], orig, ms[i], item)) <==> PshStays(item, orig, ms)
  {
    hide IsSegment, Accounted, Members, Joined, Flagged, PshStays, SameFlags;
    var hdr := HdrOf(item);
    forall i | 0 <= i < |ms|
      ensures SameFlags(packets[i], orig, ms[i], item) <==> i < |ms| - 1 || PshStays(item, orig, ms)
    {
      SegmentFlagsBack(packets[i], out, packet, item, orig, ms, i, Lo(hdr, i), Hi(hdr, i, |out|));
    }
    NotEmpty(item, orig, ms);
    var last := |ms| - 1;
    assert SameFlags(packets[last], orig, ms[last], item) <==> PshStays(item, orig, ms);
  }

  lemma NotEmpty(item: Item, orig: seq<seq<byte>>, ms: seq<nat>)
    requires Members(item, orig, ms)
    ensures |ms| > 0
  {
  }

  // ----- what the header asks for

  /** The header of a merged packet asks for its checksum to be completed, and doing so
      at the place it names makes the merged packet verify. */
  lemma AsksForChecksum(out: seq<byte>, packet: seq<byte>, item: Item, r: seq<byte>)
    requires item.Sized() && item.HeadersLen() <= |packet| <= 0xffff && Accounted(out, packet, item)
    ensures var hdr := HdrOf(item); hdr.needsCsum && hdr.csumStart + hdr.csumOffset + 2 <= |out| <= 0xffff
    ensures Completed(r, out, HdrOf(item).csumStart, HdrOf(item).csumOffset) ==>
      Verifies(r, item.iphLen, item.Protocol(), item.key.isV6)
  {
    hide Verifies, Ones, Sum;
  }

  lemma PayloadUntouched(out: seq<byte>, packet: seq<byte>, item: Item)
    requires item.Sized() && item.HeadersLen() <= |packet| <= 0xffff && Accounted(out, packet, item)
    ensures out[item.HeadersLen()..] == packet[item.HeadersLen()..]
  {
  }

  /** Reading back what the accounting pass wrote undoes the merge: the split gives
      back every member, in order. */
  lemma RoundTrip(packet: seq<byte>, item: Item, orig: seq<seq<byte>>, ms: seq<nat>, out: seq<byte>,
      packets: seq<seq<byte>>)
    requires IsGroup(packet, item, orig, ms) && Accounted(out, packet, item)
    requires HdrOf(item).Describes(|out|, item.key.isV6) && IsSplit(packets, out, HdrOf(item), item.key.isV6)
    ensures |packets| == |ms|
    ensures forall i :: 0 <= i < |ms| ==> Belongs(orig, ms[i], item) && Restored(packets[i], orig, ms[i], item)
  {
    var hdr := HdrOf(item);
    SegmentCount(packet, item, orig, ms, out, |packets|);
    forall i | 0 <= i < |ms|
      ensures Belongs(orig, ms[i], item) && Restored(packets[i], orig, ms[i], item)
    {
      SegmentRestores(packets[i], out, packet, item, orig, ms, i, Lo(hdr, i), Hi(hdr, i, |out|));
    }
  }

  lemma SegmentCount(packet: seq<byte>, item: Item, orig: seq<seq<byte>>, ms: seq<nat>, out: seq<byte>, n: nat)
    requires IsGroup(packet, item, orig, ms) && Accounted(out, packet, item)
    ensures |out| <= Lo(HdrOf(item), n) && (n > 0 ==> Lo(HdrOf(item), n - 1) < |out|) ==> n == |ms|
    ensures |out| <= Lo(HdrOf(item), n) <==> |ms| <= n
  {
    var g, m, len := item.gsoSize, |ms|, |out| - item.HeadersLen();
    JoinedLength(orig, ms, item.HeadersLen(), g);
    PayloadUntouched(out, packet, item);
    Product(g, m - 1);
    if len <= g * n && (n > 0 ==> g * (n - 1) < len) {
      PieceCount(g, m, n, len);
    }
    if m <= n {
      Spread(g, m, n);
    } else {
      Spread(g, n, m - 1);
    }
  }
}
