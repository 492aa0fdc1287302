/** Exactly which packets coalescing looks at, and exactly when one may join a group,
    said of the packets' bytes. */
module GroMerging {
  import opened Arith
  import opened Bitwise
  import opened Checksum
  import opened Options
  import opened PacketFields
  import opened GroGroups
  import opened GroOrder
  import opened GroRoundTrip
  import opened GroState
  import opened Gro

  /** An IP packet of this protocol: no options, not a fragment, its length field right. */
  predicate WholeIp(pkt: seq<byte>, isV6: bool, protocol: uint8) {
    && MinIpHeader(isV6) <= |pkt| <= 0xffff && pkt[ProtocolAt(isV6)] == protocol
    && (if isV6 then pkt[0] / 16 == 6 && U16(pkt, 4) == |pkt| - 40
        else pkt[0] == 0x45 && U16(pkt, 2) == |pkt| && U16(pkt, 6) % 0x4000 == 0)
  }

  /** A TCP segment with some payload, and of flags ACK alone or with PSH. */
  predicate IsData(pkt: seq<byte>, isV6: bool) {
    var iphLen := MinIpHeader(isV6);
    && WholeIp(pkt, isV6, IPPROTO_TCP) && |pkt| >= iphLen + 20
    && 20 <= pkt[iphLen + 12] / 16 * 4 < |pkt| - iphLen
    && (pkt[iphLen + TCP_FLAGS_OFFSET] == AckFlags(false) || pkt[iphLen + TCP_FLAGS_OFFSET] == AckFlags(true))
  }

  /** The more-fragments flag and the fragment offset are the low 14 bits of their field. */
  lemma FragmentField(pkt: seq<byte>)
    requires |pkt| >= 8
    ensures pkt[6] / 32 % 2 == 0 && pkt[6] % 32 == 0 && pkt[7] == 0 <==> U16(pkt, 6) % 0x4000 == 0
  {
    var x: int, y: int := pkt[6], pkt[7];
    DivideUnique(x * 0x100 + y, 0x4000, x / 64, x % 64 * 0x100 + y);
  }

  /** Coalescing is tried with a TCP packet exactly when it is such a segment; and what
      it then offers. */
  lemma TcpTried(pkt: seq<byte>, canUdpGro: bool, isV6: bool)
    ensures PacketIsGroCandidate(pkt, canUdpGro) == TcpCandidate(isV6) && TcpOffer(pkt, isV6).Some? <==>
      IsData(pkt, isV6)
    ensures IsData(pkt, isV6) ==> var iphLen := MinIpHeader(isV6); var thLen := pkt[iphLen + 12] / 16 * 4;
      TcpOffer(pkt, isV6) == Some(Offer(iphLen, thLen, U32(pkt, iphLen + 4),
        pkt[iphLen + TCP_FLAGS_OFFSET] == AckFlags(true), |pkt| - iphLen - thLen))
  {
    hide U16, U32;
    if |pkt| >= 8 {
      FragmentField(pkt);
    }
  }

  /** Likewise with a UDP packet. */
  lemma UdpTried(pkt: seq<byte>, canUdpGro: bool, isV6: bool)
    ensures Tries(pkt, canUdpGro) && PacketIsGroCandidate(pkt, canUdpGro).isV6 == isV6 <==>
      canUdpGro && WholeIp(pkt, isV6, IPPROTO_UDP) && |pkt| > MinIpHeader(isV6) + UDPH_LEN
  {
    hide U16, U32;
    if |pkt| >= 8 {
      FragmentField(pkt);
    }
  }

  /** The tests on headers, between two packets. */
  predicate Alike(pkt: seq<byte>, target: seq<byte>, item: Item) {
    && item.Sized() && item.HeadersLen() <= |pkt| && item.HeadersLen() <= |target|
    && (item.tcp ==> TcpOptions(pkt, item) == TcpOptions(target, item)) && IpHeadersCanCoalesce(pkt, target)
  }

  /** The packet in front of a group has the headers of its first member. */
  lemma AlikeIsKin(packet: seq<byte>, item: Item, orig: seq<seq<byte>>, ms: seq<nat>, k: nat)
    requires IsGroup(packet, item, orig, ms) && Belongs(orig, k, item)
    ensures Alike(orig[k], packet, item) <==> Kin(orig[k], orig[ms[0]], item)
  {
    hide Even, Joined, InSequence, KeyOf, Kindred;
    var first := orig[ms[0]];
    assert Belongs(orig, ms[0], item);
    assert packet[0] == first[0] && packet[1] == first[1] && packet[6] == first[6] && packet[7] == first[7];
    assert packet[8] == first[8];
    if item.tcp {
      assert TcpOptions(packet, item) == TcpOptions(first, item);
    }
  }

  lemma AppendTests(pkt: seq<byte>, offer: Offer, item: Item, packet: seq<byte>)
    requires item.Sized() && item.HeadersLen() <= |pkt| && item.HeadersLen() <= |packet| && item.gsoSize > 0
    requires offer.iphLen == item.iphLen && offer.thLen == item.thLen
    ensures Allows(Append, pkt, offer, item, packet) <==>
      && Alike(pkt, packet, item) && (|packet| - item.HeadersLen()) % item.gsoSize == 0 && offer.gsoSize <= item.gsoSize
      && (item.tcp ==> offer.seqNum == (item.sentSeq + LhsLen(item)) % 0x1_0000_0000 && !item.pshSet)
  {
    hide LhsLen, IpHeadersCanCoalesce;
  }

  /** A packet cannot both follow a group and come before it: their lengths are too small
      for the sequence numbers to wrap around. */
  lemma NotBoth(s: uint32, seqNum: uint32, len: uint16, g: uint16)
    requires 1 <= g && (seqNum + g) % 0x1_0000_0000 == s
    ensures seqNum != (s + len) % 0x1_0000_0000
  {
  }

  lemma PrependTests(pkt: seq<byte>, offer: Offer, item: Item, packet: seq<byte>)
    requires item.Sized() && item.HeadersLen() <= |pkt| && item.HeadersLen() <= |packet| && item.gsoSize > 0
    requires offer.iphLen == item.iphLen && offer.thLen == item.thLen && offer.gsoSize > 0
    ensures Allows(Prepend, pkt, offer, item, packet) <==>
      && item.tcp && Alike(pkt, packet, item)
      && (offer.seqNum + offer.gsoSize) % 0x1_0000_0000 == item.sentSeq && !offer.pshSet
      && (offer.gsoSize == item.gsoSize || (offer.gsoSize > item.gsoSize && item.numMerged == 0))
  {
    if (offer.seqNum + offer.gsoSize) % 0x1_0000_0000 == item.sentSeq {
      NotBoth(item.sentSeq, offer.seqNum, LhsLen(item), offer.gsoSize);
    }
    hide LhsLen, IpHeadersCanCoalesce;
  }

  /** All members are full exactly when the length is a multiple of the segment size. */
  lemma FullExact(packet: seq<byte>, item: Item, orig: seq<seq<byte>>, ms: seq<nat>)
    requires IsGroup(packet, item, orig, ms)
    ensures (|packet| - item.HeadersLen()) % item.gsoSize == 0 <==>
      |orig[ms[|ms| - 1]]| - item.HeadersLen() == item.gsoSize
  {
    var g, m := item.gsoSize, |ms| - 1;
    JoinedLength(orig, ms, item.HeadersLen(), g);
    if |orig[ms[m]]| - item.HeadersLen() == g {
      Product(g, m);
      assert g * (m + 1) % g == 0 by {
        MultipleMod(g, m + 1);
      }
    } else if (|packet| - item.HeadersLen()) % g == 0 {
      GroupFull(packet, item, orig, ms);
    }
  }

  lemma MultipleMod(g: nat, n: nat)
    requires g > 0
    ensures g * n % g == 0
  {
    DivideUnique(g * n, g, n, 0);
  }

  /** Where the next segment of a group of full members starts. */
  lemma NextSeq(packet: seq<byte>, item: Item, orig: seq<seq<byte>>, ms: seq<nat>)
    requires IsGroup(packet, item, orig, ms) && item.tcp && (|packet| - item.HeadersLen()) % item.gsoSize == 0
    ensures Belongs(orig, ms[|ms| - 1], item)
    ensures (item.sentSeq + LhsLen(item)) % 0x1_0000_0000
      == (SeqNum(orig, ms[|ms| - 1], item) + item.gsoSize) % 0x1_0000_0000
  {
    GroupFull(packet, item, orig, ms);
    var s, g, m := item.sentSeq, item.gsoSize, |ms| - 1;
    assert Belongs(orig, ms[m], item) && SeqNum(orig, ms[m], item) == (s + g * m) % 0x1_0000_0000;
    Product(g, m);
    AddAfterMod(s + g * m, g);
  }

  lemma AddAfterMod(x: nat, g: nat)
    ensures (x % 0x1_0000_0000 + g) % 0x1_0000_0000 == (x + g) % 0x1_0000_0000
  {
  }

  /** A packet that can follow a group, said of the inputs. */
  ghost predicate Follows(orig: seq<seq<byte>>, ms: seq<nat>, k: nat, item: Item)
    requires Members(item, orig, ms) && Belongs(orig, k, item)
  {
    var h, last := item.HeadersLen(), ms[|ms| - 1];
    && Kin(orig[k], orig[ms[0]], item)
    && |orig[last]| - h == item.gsoSize && |orig[k]| - h <= item.gsoSize
    && (item.tcp ==>
          && SeqNum(orig, k, item) == (SeqNum(orig, last, item) + item.gsoSize) % 0x1_0000_0000
          && Flags(orig[last], item) == AckFlags(false))
  }

  /** A packet may be appended to a group exactly when it is kin to it, all members are
      full, it is no longer than they, and for TCP its bytes follow the last one's, which
      had no PSH. */
  lemma AppendExact(packet: seq<byte>, item: Item, orig: seq<seq<byte>>, ms: seq<nat>, k: nat, offer: Offer)
    requires IsGroup(packet, item, orig, ms) && Flagged(packet, item, orig, ms) && Offers(orig, k, offer, item)
    ensures Allows(Append, orig[k], offer, item, packet) <==> Follows(orig, ms, k, item)
  {
    AlikeIsKin(packet, item, orig, ms, k);
    FullExact(packet, item, orig, ms);
    if item.tcp && (|packet| - item.HeadersLen()) % item.gsoSize == 0 {
      NextSeq(packet, item, orig, ms);
    }
    hide Allows, Alike, Kin, Kindred, KeyOf, Joined, InSequence, LhsLen, SeqNum;
    AppendTests(orig[k], offer, item, packet);
  }

  /** A packet that can come before a group, said of the inputs. */
  ghost predicate Leads(orig: seq<seq<byte>>, ms: seq<nat>, k: nat, item: Item)
    requires Members(item, orig, ms) && Belongs(orig, k, item)
  {
    var size := |orig[k]| - item.HeadersLen();
    && item.tcp && Kin(orig[k], orig[ms[0]], item)
    && (SeqNum(orig, k, item) + size) % 0x1_0000_0000 == SeqNum(orig, ms[0], item)
    && Flags(orig[k], item) == AckFlags(false)
    && (size == item.gsoSize || (size > item.gsoSize && |ms| == 1))
  }

  /** A packet may be put in front of a group exactly when the group is of TCP, it is kin
      to it, its bytes come just before the first member's, it has no PSH, and it is as long
      as the members, or longer than the only one. */
  lemma PrependExact(packet: seq<byte>, item: Item, orig: seq<seq<byte>>, ms: seq<nat>, k: nat, offer: Offer)
    requires IsGroup(packet, item, orig, ms) && Offers(orig, k, offer, item)
    ensures Allows(Prepend, orig[k], offer, item, packet) <==> Leads(orig, ms, k, item)
  {
    AlikeIsKin(packet, item, orig, ms, k);
    if item.tcp {
      FirstInSequence(item, orig, ms);
    }
    hide Allows, Alike, Kin, Kindred, KeyOf, Joined, InSequence, SeqNum;
    PrependTests(orig[k], offer, item, packet);
  }

  // ----- a flag that is lost

  /** Two segments that came in the wrong order, the later one with PSH set. */
  ghost predicate Swapped(a: seq<byte>, b: seq<byte>, item: Item, offer: Offer) {
    && item.tcp && item.pshSet && GroupOk(a, item, [a, b], [0]) && Offers([a, b], 1, offer, item)
    && Leads([a, b], [0], 1, item)
    && Verifies(a, item.iphLen, IPPROTO_TCP, item.key.isV6) && Verifies(b, item.iphLen, IPPROTO_TCP, item.key.isV6)
    && |a| + offer.gsoSize <= 0xffff
  }

  /** They merge, and the merged packet has no PSH. */
  lemma PshLost(a: seq<byte>, b: seq<byte>, item: Item, offer: Offer)
    requires Swapped(a, b, item, offer)
    ensures var item' := item.(numMerged := 1, sentSeq := offer.seqNum, gsoSize := offer.gsoSize);
      Allows(Prepend, b, offer, item, a) && GroupOk(Prepended(a, b, item.HeadersLen()), item', [a, b], [1, 0])
      && !PshStays(item', [a, b], [1, 0])
  {
    var orig := [a, b];
    var item' := item.(numMerged := 1, sentSeq := offer.seqNum, gsoSize := offer.gsoSize);
    PrependExact(a, item, orig, [0], 1, offer);
    PrependOk(a, item, orig, [0], 1, offer, item');
    assert [1] + [0] == [1, 0];
  }

  /** A TCP segment of zeros with one byte of payload, byte by byte. */
  function SegmentByteAt(seqNum: byte, psh: bool, i: nat): byte {
    if i == 0 then 0x45
    else if i == 3 then 41
    else if i == 9 then IPPROTO_TCP
    else if i == 27 then seqNum
    else if i == 32 then 0x50
    else if i == 33 then AckFlags(psh)
    else 0
  }

  function SegmentZeros(seqNum: byte, psh: bool): (pkt: seq<byte>)
    ensures |pkt| == 41 && forall i :: 0 <= i < |pkt| ==> pkt[i] == SegmentByteAt(seqNum, psh, i)
  {
    seq(41, i requires 0 <= i => SegmentByteAt(seqNum, psh, i))
  }

  /** The same with a valid checksum. */
  ghost function Segment(seqNum: byte, psh: bool): (pkt: seq<byte>)
    ensures |pkt| == 41 && forall i :: 0 <= i < 36 ==> pkt[i] == SegmentByteAt(seqNum, psh, i)
    ensures Verifies(pkt, 20, IPPROTO_TCP, false)
  {
    var pkt := SegmentZeros(seqNum, psh);
    SealVerifies(pkt, 20, 16, IPPROTO_TCP, false);
    Put16(pkt, 36, Complement(Ones(TransportSum(pkt, 20, IPPROTO_TCP, false))))
  }

  lemma SegmentData(seqNum: byte, psh: bool)
    ensures IsData(Segment(seqNum, psh), false) && U32(Segment(seqNum, psh), 24) == seqNum
    ensures forall other, psh' :: SameEnds(Segment(seqNum, psh), 20, Segment(other, psh'), 20, true, false)
  {
    hide Segment, Verifies;
    var a := Segment(seqNum, psh);
    forall other, psh' ensures SameEnds(a, 20, Segment(other, psh'), 20, true, false) {
      var b := Segment(other, psh');
      assert a[12..16] == b[12..16] && a[16..20] == b[16..20] && a[28..32] == b[28..32];
    }
  }

  /** An input of that kind. */
  lemma SwappedSegments()
    ensures exists item, offer :: Swapped(Segment(1, true), Segment(0, false), item, offer)
  {
    hide Segment, Verifies, KeyOf, SameEnds, U32, U16;
    var a, b := Segment(1, true), Segment(0, false);
    var orig := [a, b];
    SegmentData(1, true);
    SegmentData(0, false);
    TcpTried(a, false, false);
    TcpTried(b, false, false);
    FlowExact(a, 20, b, 20, true, false);
    var offer, offer' := TcpOffer(a, false).value, TcpOffer(b, false).value;
    var key := KeyOf(a, 20, true, false);
    ParsedPacket(orig, 0, true, false, offer);
    ParsedPacket(orig, 1, true, false, offer');
    NewItemOk(orig, 0, true, key, offer, false);
    var item := NewItem(true, key, 0, offer, false);
    OffersToItem(a, item, orig, [0], 1, offer');
    assert Kin(b, a, item);
    assert Swapped(a, b, item, offer');
  }
}
