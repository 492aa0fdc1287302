/** Coalescing: what a packet offers, when two may merge, and the groups that
    merging builds. */
module GroGroups {
  import opened Arith
  import opened Bitwise
  import opened Checksum
  import opened Options
  import opened PacketFields

  const UDPH_LEN := 8
  const FLAG_PSH := 0x08
  const FLAG_ACK := 0x10

  /** A flow; for UDP rxAck is zero. */
  datatype FlowKey = FlowKey(src: seq<byte>, dst: seq<byte>, srcPort: uint16, dstPort: uint16, rxAck: uint32,
      isV6: bool)

  /** Bookkeeping for a packet that others may be merged into. */
  datatype Item = Item(tcp: bool, key: FlowKey, sentSeq: uint32, bufsIndex: nat, numMerged: uint16, gsoSize: uint16,
                       iphLen: nat, thLen: nat, pshSet: bool, cSumKnownInvalid: bool) {
    function HeadersLen(): nat {
      iphLen + thLen
    }

    function Protocol(): uint8 {
      if tcp then IPPROTO_TCP else IPPROTO_UDP
    }

    predicate Sized() {
      iphLen == MinIpHeader(key.isV6) && (if tcp then 20 <= thLen <= 60 else thLen == UDPH_LEN)
    }
  }

  function KeyOf(pkt: seq<byte>, iphLen: nat, tcp: bool, isV6: bool): FlowKey
    requires MinIpHeader(isV6) <= iphLen && iphLen + (if tcp then 20 else UDPH_LEN) <= |pkt|
  {
    FlowKey(Src(pkt, isV6), Dst(pkt, isV6), U16(pkt, iphLen), U16(pkt, iphLen + 2), if tcp then U32(pkt, iphLen + 8)
      else 0, isV6)
  }

  /** Two packets, with IP headers of m and n bytes, agree byte for byte in what makes a
      flow: both addresses, both ports and, for TCP, the acknowledgement number. */
  predicate SameEnds(a: seq<byte>, m: nat, b: seq<byte>, n: nat, tcp: bool, isV6: bool)
    requires MinIpHeader(isV6) <= m && m + (if tcp then 20 else UDPH_LEN) <= |a|
    requires MinIpHeader(isV6) <= n && n + (if tcp then 20 else UDPH_LEN) <= |b|
  {
    && (if isV6 then a[8..24] == b[8..24] && a[24..40] == b[24..40]
        else a[12..16] == b[12..16] && a[16..20] == b[16..20])
    && a[m] == b[n] && a[m + 1] == b[n + 1] && a[m + 2] == b[n + 2] && a[m + 3] == b[n + 3]
    && (tcp ==> a[m + 8..m + 12] == b[n + 8..n + 12])
  }

  lemma U16Injective(a: seq<byte>, m: nat, b: seq<byte>, n: nat)
    requires m + 2 <= |a| && n + 2 <= |b|
    ensures U16(a, m) == U16(b, n) <==> a[m] == b[n] && a[m + 1] == b[n + 1]
  {
  }

  lemma U32Injective(a: seq<byte>, m: nat, b: seq<byte>, n: nat)
    requires m + 4 <= |a| && n + 4 <= |b|
    ensures U32(a, m) == U32(b, n) <==> a[m..m + 4] == b[n..n + 4]
  {
    U16Injective(a, m, b, n);
    U16Injective(a, m + 2, b, n + 2);
    var x, y := a[m..m + 4], b[n..n + 4];
    assert x == y <==> x[0] == y[0] && x[1] == y[1] && x[2] == y[2] && x[3] == y[3];
  }

  /** Two packets are of one flow exactly when they agree in those bytes. */
  lemma FlowExact(a: seq<byte>, m: nat, b: seq<byte>, n: nat, tcp: bool, isV6: bool)
    requires MinIpHeader(isV6) <= m && m + (if tcp then 20 else UDPH_LEN) <= |a|
    requires MinIpHeader(isV6) <= n && n + (if tcp then 20 else UDPH_LEN) <= |b|
    ensures KeyOf(a, m, tcp, isV6) == KeyOf(b, n, tcp, isV6) <==> SameEnds(a, m, b, n, tcp, isV6)
  {
    U16Injective(a, m, b, n);
    U16Injective(a, m + 2, b, n + 2);
    if tcp {
      U32Injective(a, m + 8, b, n + 8);
    }
  }

  // ----- what one packet offers

  /** A packet read for coalescing: its header lengths, sequence number and PSH flag. */
  datatype Offer = Offer(iphLen: nat, thLen: nat, seqNum: uint32, pshSet: bool, gsoSize: uint16)

  datatype Candidate = NotCandidate | TcpCandidate(isV6: bool) | UdpCandidate(isV6: bool)

  /** Where the IP header names the protocol. */
  function ProtocolAt(isV6: bool): nat {
    if isV6 then 6 else 9
  }

  function PacketIsGroCandidate(b: seq<byte>, canUdpGro: bool): (c: Candidate)
    ensures !c.NotCandidate? ==> |b| >= MinIpHeader(c.isV6) + (if c.TcpCandidate? then 20 else UDPH_LEN)
    ensures !c.NotCandidate? ==> b[0] / 16 == (if c.isV6 then 6 else 4) && (!c.isV6 ==> b[0] % 16 == 5)
    ensures !c.NotCandidate? ==> b[ProtocolAt(c.isV6)] == if c.TcpCandidate? then IPPROTO_TCP else IPPROTO_UDP
  {
    if |b| < 28 then NotCandidate
    else if b[0] / 16 == 4 then
      if b[0] % 16 != 5 then NotCandidate
      else if b[9] == IPPROTO_TCP && |b| >= 40 then TcpCandidate(false)
      else if b[9] == IPPROTO_UDP && canUdpGro then UdpCandidate(false)
      else NotCandidate
    else if b[0] / 16 == 6 then
      if b[6] == IPPROTO_TCP && |b| >= 60 then TcpCandidate(true)
      else if b[6] == IPPROTO_UDP && |b| >= 48 && canUdpGro then UdpCandidate(true)
      else NotCandidate
    else NotCandidate
  }

  /** The length field agrees with the packet, and the packet is no fragment. */
  predicate Whole(pkt: seq<byte>, iphLen: nat, isV6: bool)
    requires |pkt| >= MinIpHeader(isV6)
  {
    if isV6 then U16(pkt, 4) == |pkt| - iphLen
    else U16(pkt, 2) == |pkt| && pkt[6] / 32 % 2 == 0 && pkt[6] % 32 == 0 && pkt[7] == 0
  }

  function IphLen(pkt: seq<byte>, isV6: bool): nat
    requires pkt != []
  {
    if isV6 then 40 else pkt[0] % 16 * 4
  }

  /** None when coalescing is not even tried with this packet. */
  function TcpOffer(pkt: seq<byte>, isV6: bool): Option<Offer>
    requires |pkt| >= MinIpHeader(isV6) + 20 && IphLen(pkt, isV6) == MinIpHeader(isV6)
  {
    var iphLen := IphLen(pkt, isV6);
    var tcphLen := pkt[iphLen + 12] / 16 * 4;
    if |pkt| > 0xffff || !Whole(pkt, iphLen, isV6) || tcphLen < 20 || tcphLen > 60 || |pkt| < iphLen + tcphLen then None
    else
      var flags := pkt[iphLen + TCP_FLAGS_OFFSET];
      if flags != FLAG_ACK && flags != FLAG_ACK + FLAG_PSH then None
      else if |pkt| - tcphLen - iphLen < 1 then None
      else Some(Offer(iphLen, tcphLen, U32(pkt, iphLen + 4), flags != FLAG_ACK, |pkt| - tcphLen - iphLen))
  }

  function UdpOffer(pkt: seq<byte>, isV6: bool): Option<Offer>
    requires |pkt| >= MinIpHeader(isV6) + UDPH_LEN && IphLen(pkt, isV6) == MinIpHeader(isV6)
  {
    var iphLen := IphLen(pkt, isV6);
    if |pkt| > 0xffff || !Whole(pkt, iphLen, isV6) || |pkt| - UDPH_LEN - iphLen < 1 then None
    else Some(Offer(iphLen, UDPH_LEN, 0, false, |pkt| - UDPH_LEN - iphLen))
  }

  // ----- when two packets may merge

  datatype CanCoalesce = Prepend | Unavailable | Append

  predicate IpHeadersCanCoalesce(a: seq<byte>, b: seq<byte>) {
    && |a| >= 9 && |b| >= 9
    && if a[0] / 16 == 6 then a[0] == b[0] && a[1] / 16 == b[1] / 16 && a[7] == b[7]
       else a[1] == b[1] && a[6] / 32 == b[6] / 32 && a[8] == b[8]
  }

  function UdpPacketsCanCoalesce(pkt: seq<byte>, offer: Offer, item: Item, target: seq<byte>): CanCoalesce
    requires |target| >= offer.iphLen + UDPH_LEN && item.gsoSize > 0
  {
    if !IpHeadersCanCoalesce(pkt, target) then Unavailable
    else if (|target| - offer.iphLen - UDPH_LEN) % item.gsoSize != 0 then Unavailable
    else if offer.gsoSize > item.gsoSize then Unavailable
    else Append
  }

  /** The item's length as 16-bit arithmetic has it: every merged packet counted at full size. */
  function LhsLen(item: Item): uint16 {
    (item.gsoSize + item.numMerged * item.gsoSize % 0x1_0000) % 0x1_0000
  }

  function TcpPacketsCanCoalesce(pkt: seq<byte>, offer: Offer, item: Item, target: seq<byte>): CanCoalesce
    requires |pkt| >= offer.iphLen + offer.thLen && offer.thLen >= 20
    requires |target| >= item.iphLen + item.thLen && item.iphLen == offer.iphLen && item.gsoSize > 0
  {
    if offer.thLen != item.thLen then Unavailable
    else if pkt[offer.iphLen + 20..offer.iphLen + offer.thLen]
              != target[item.iphLen + 20..offer.iphLen + offer.thLen] then Unavailable
    else if !IpHeadersCanCoalesce(pkt, target) then Unavailable
    else if offer.seqNum == (item.sentSeq + LhsLen(item)) % 0x1_0000_0000 then
      if item.pshSet then Unavailable
      else if (|target| - offer.iphLen - offer.thLen) % item.gsoSize != 0 then Unavailable
      else if offer.gsoSize > item.gsoSize then Unavailable
      else Append
    else if (offer.seqNum + offer.gsoSize) % 0x1_0000_0000 == item.sentSeq then
      if offer.pshSet then Unavailable
      else if offer.gsoSize < item.gsoSize then Unavailable
      else if offer.gsoSize > item.gsoSize && item.numMerged > 0 then Unavailable
      else Prepend
    else Unavailable
  }

  /** The packet that offers may merge with the item's in this way. */
  predicate Allows(can: CanCoalesce, pkt: seq<byte>, offer: Offer, item: Item, target: seq<byte>) {
    && |pkt| >= offer.iphLen + offer.thLen && |target| >= item.iphLen + item.thLen
    && item.iphLen == offer.iphLen && item.gsoSize > 0 && item.Sized()
    && (if item.tcp then offer.thLen >= 20 && TcpPacketsCanCoalesce(pkt, offer, item, target) == can
        else UdpPacketsCanCoalesce(pkt, offer, item, target) == can)
  }

  // ----- groups

  /** Packet k of the input could be a member of the item's group. */
  ghost predicate Belongs(orig: seq<seq<byte>>, k: nat, item: Item) {
    && k < |orig| && item.HeadersLen() < |orig[k]| <= 0xffff && item.Sized()
    && orig[k][0] / 16 == (if item.key.isV6 then 6 else 4)
    && orig[k][ProtocolAt(item.key.isV6)] == item.Protocol()
    && KeyOf(orig[k], item.iphLen, item.tcp, item.key.isV6) == item.key
    && (item.tcp ==> orig[k][item.iphLen + 12] / 16 * 4 == item.thLen)
  }

  ghost function SeqNum(orig: seq<seq<byte>>, k: nat, item: Item): uint32
    requires Belongs(orig, k, item) && item.tcp
  {
    U32(orig[k], item.iphLen + 4)
  }

  ghost function Payload(orig: seq<seq<byte>>, k: nat, h: nat): seq<byte>
    requires k < |orig| && h <= |orig[k]|
  {
    orig[k][h..]
  }

  ghost predicate Long(orig: seq<seq<byte>>, ms: seq<nat>, h: nat) {
    forall j :: 0 <= j < |ms| ==> ms[j] < |orig| && h <= |orig[ms[j]]|
  }

  /** The members' payloads, one after the other. */
  ghost function Joined(orig: seq<seq<byte>>, ms: seq<nat>, h: nat): seq<byte>
    requires Long(orig, ms, h)
  {
    if ms == [] then [] else Joined(orig, ms[..|ms| - 1], h) + Payload(orig, ms[|ms| - 1], h)
  }

  /** All members but the last have payloads of gsoSize bytes; the last has no more, and some. */
  ghost predicate Even(orig: seq<seq<byte>>, ms: seq<nat>, h: nat, gsoSize: nat)
    requires Long(orig, ms, h)
  {
    && ms != []
    && (forall j :: 0 <= j < |ms| - 1 ==> |Payload(orig, ms[j], h)| == gsoSize)
    && 1 <= |Payload(orig, ms[|ms| - 1], h)| <= gsoSize
  }

  /** Member j carries the sequence number that follows from its place. */
  ghost predicate InSequence(orig: seq<seq<byte>>, ms: seq<nat>, item: Item)
    requires forall j :: 0 <= j < |ms| ==> Belongs(orig, ms[j], item)
  {
    item.tcp ==> forall j :: 0 <= j < |ms| ==>
      SeqNum(orig, ms[j], item) == (item.sentSeq + item.gsoSize * j) % 0x1_0000_0000
  }

  /** The headers in front: the first member's, but for the TCP flags. */
  ghost predicate HeadersOf(packet: seq<byte>, first: seq<byte>, item: Item) {
    && item.Sized() && item.HeadersLen() <= |packet| && item.HeadersLen() <= |first|
    && forall k :: 0 <= k < item.HeadersLen() && !(item.tcp && k == item.iphLen + TCP_FLAGS_OFFSET) ==>
      packet[k] == first[k]
  }

  /** What merging compares besides the flow: version, type of service, time to live and
      fragment flags, and TCP options. */
  predicate Kin(a: seq<byte>, b: seq<byte>, item: Item) {
    && item.Sized() && item.HeadersLen() <= |a| && item.HeadersLen() <= |b|
    && (if item.key.isV6 then a[0] == b[0] && a[1] / 16 == b[1] / 16 && a[7] == b[7]
        else a[1] == b[1] && a[6] / 32 == b[6] / 32 && a[8] == b[8])
    && (item.tcp ==> TcpOptions(a, item) == TcpOptions(b, item))
  }

  function TcpOptions(a: seq<byte>, item: Item): seq<byte>
    requires item.Sized() && item.tcp && item.HeadersLen() <= |a|
  {
    a[item.iphLen + 20..item.HeadersLen()]
  }

  function Flags(pkt: seq<byte>, item: Item): byte
    requires item.Sized() && item.tcp && item.HeadersLen() <= |pkt|
  {
    pkt[item.iphLen + TCP_FLAGS_OFFSET]
  }

  function AckFlags(psh: bool): byte {
    if psh then FLAG_ACK + FLAG_PSH else FLAG_ACK
  }

  ghost predicate Kindred(orig: seq<seq<byte>>, ms: seq<nat>, item: Item) {
    forall i, j :: 0 <= i < |ms| && 0 <= j < |ms| ==>
      ms[i] < |orig| && ms[j] < |orig| && Kin(orig[ms[i]], orig[ms[j]], item)
  }

  /** The members belong together, as the item says. */
  ghost predicate Members(item: Item, orig: seq<seq<byte>>, ms: seq<nat>) {
    && |ms| == item.numMerged + 1
    && (forall j :: 0 <= j < |ms| ==> Belongs(orig, ms[j], item))
    && Even(orig, ms, item.HeadersLen(), item.gsoSize)
    && InSequence(orig, ms, item) && Kindred(orig, ms, item)
  }

  /** The packet is the merge of the members, in order. */
  ghost predicate IsGroup(packet: seq<byte>, item: Item, orig: seq<seq<byte>>, ms: seq<nat>) {
    && |packet| <= 0xffff && Members(item, orig, ms)
    && HeadersOf(packet, orig[ms[0]], item)
    && packet[item.HeadersLen()..] == Joined(orig, ms, item.HeadersLen())
  }

  /** All members have ACK set, and the last may have PSH set too, which the item knows.
      The merged packet then has it as well, unless its first member came after its last. */
  ghost predicate Flagged(packet: seq<byte>, item: Item, orig: seq<seq<byte>>, ms: seq<nat>)
    requires item.Sized() && item.HeadersLen() <= |packet| && Members(item, orig, ms)
  {
    item.tcp ==>
      && (forall j :: 0 <= j < |ms| - 1 ==> Flags(orig[ms[j]], item) == AckFlags(false))
      && Flags(orig[ms[|ms| - 1]], item) == AckFlags(item.pshSet)
      && Flags(packet, item) == AckFlags(item.pshSet && ms[0] <= ms[|ms| - 1])
  }

  // ----- lengths

  lemma {:induction false} JoinedLength(orig: seq<seq<byte>>, ms: seq<nat>, h: nat, g: nat)
    requires Long(orig, ms, h) && Even(orig, ms, h, g)
    ensures |Joined(orig, ms, h)| == g * (|ms| - 1) + |Payload(orig, ms[|ms| - 1], h)|
  {
    var n := |ms| - 1;
    if n > 0 {
      var init := ms[..n];
      assert Even(orig, init, h, g);
      JoinedLength(orig, init, h, g);
      Product(g, n - 1);
    } else {
      assert ms[..0] == [];
    }
  }

  lemma Product(g: nat, n: nat)
    ensures g * (n + 1) == g * n + g
  {
  }

  lemma JoinedSnoc(orig: seq<seq<byte>>, ms: seq<nat>, k: nat, h: nat)
    requires Long(orig, ms, h) && k < |orig| && h <= |orig[k]|
    ensures Long(orig, ms + [k], h) && Joined(orig, ms + [k], h) == Joined(orig, ms, h) + Payload(orig, k, h)
  {
    assert (ms + [k])[..|ms|] == ms;
  }

  lemma {:induction false} JoinedFront(orig: seq<seq<byte>>, k: nat, ms: seq<nat>, h: nat)
    requires Long(orig, ms, h) && k < |orig| && h <= |orig[k]|
    ensures Long(orig, [k] + ms, h) && Joined(orig, [k] + ms, h) == Payload(orig, k, h) + Joined(orig, ms, h)
  {
    if ms == [] {
      JoinedSnoc(orig, [], k, h);
      assert [k] + ms == [] + [k];
    } else {
      var n := |ms| - 1;
      var init, last := ms[..n], ms[n];
      JoinedFront(orig, k, init, h);
      JoinedSnoc(orig, [k] + init, last, h);
      assert Joined(orig, ms, h) == Joined(orig, init, h) + Payload(orig, last, h);
      hide Joined, Payload, Long;
      assert [k] + init + [last] == [k] + ms;
      var x, y, z := Payload(orig, k, h), Joined(orig, init, h), Payload(orig, last, h);
      assert (x + y) + z == x + (y + z);
    }
  }

  /** A multiple of g made of m full pieces and one of 1 to g bytes has the last one full. */
  lemma LastFull(g: nat, m: nat, last: nat)
    requires 1 <= last <= g && (g * m + last) % g == 0
    ensures last == g
  {
    if last < g {
      DivideUnique(g * m + last, g, m, last);
    }
  }

  /** When a group's length is a multiple of gsoSize, all its members are of full size. */
  lemma GroupFull(packet: seq<byte>, item: Item, orig: seq<seq<byte>>, ms: seq<nat>)
    requires IsGroup(packet, item, orig, ms) && (|packet| - item.HeadersLen()) % item.gsoSize == 0
    ensures |packet| - item.HeadersLen() == item.gsoSize * |ms|
    ensures |Payload(orig, ms[|ms| - 1], item.HeadersLen())| == item.gsoSize
    ensures LhsLen(item) == item.gsoSize * |ms|
  {
    var h, g, last := item.HeadersLen(), item.gsoSize, |Payload(orig, ms[|ms| - 1], item.HeadersLen())|;
    JoinedLength(orig, ms, h, g);
    LastFull(g, |ms| - 1, last);
    Product(g, |ms| - 1);
    LhsLenExact(item);
  }

  lemma LhsLenExact(item: Item)
    requires item.gsoSize * (item.numMerged + 1) <= 0xffff
    ensures LhsLen(item) == item.gsoSize * (item.numMerged + 1)
  {
    Product(item.gsoSize, item.numMerged);
    var p := item.numMerged * item.gsoSize;
    assert p == item.gsoSize * item.numMerged;
  }

  // ----- merging keeps groups

  /** The packet that offers can be a member of the item's group. */
  ghost predicate Offers(orig: seq<seq<byte>>, k: nat, offer: Offer, item: Item) {
    && Belongs(orig, k, item) && offer.iphLen == item.iphLen && offer.thLen == item.thLen
    && offer.gsoSize == |orig[k]| - item.HeadersLen()
    && (item.tcp ==> offer.seqNum == SeqNum(orig, k, item) && Flags(orig[k], item) == AckFlags(offer.pshSet))
  }

  /** A byte with the PSH flag set. */
  function SetPsh(flags: byte): byte {
    if flags / FLAG_PSH % 2 == 1 then flags else flags + FLAG_PSH
  }

  function WithPsh(packet: seq<byte>, item: Item): (r: seq<byte>)
    requires item.tcp && item.Sized() && item.HeadersLen() <= |packet|
    ensures |r| == |packet| && HeadersOf(r, packet, item) && r[item.HeadersLen()..] == packet[item.HeadersLen()..]
    ensures Flags(packet, item) == AckFlags(false) ==> Flags(r, item) == AckFlags(true)
  {
    packet[item.iphLen + TCP_FLAGS_OFFSET := SetPsh(packet[item.iphLen + TCP_FLAGS_OFFSET])]
  }

  function Appended(packet: seq<byte>, pkt: seq<byte>, h: nat): seq<byte>
    requires h <= |pkt|
  {
    packet + pkt[h..]
  }

  lemma AppendEven(orig: seq<seq<byte>>, ms: seq<nat>, k: nat, h: nat, g: nat)
    requires Long(orig, ms, h) && Even(orig, ms, h, g) && |Payload(orig, ms[|ms| - 1], h)| == g
    requires k < |orig| && h <= |orig[k]| && 1 <= |Payload(orig, k, h)| <= g
    ensures Long(orig, ms + [k], h) && Even(orig, ms + [k], h, g)
    ensures Joined(orig, ms + [k], h) == Joined(orig, ms, h) + Payload(orig, k, h)
  {
    assert (ms + [k])[..|ms|] == ms;
  }

  lemma AppendInSequence(orig: seq<seq<byte>>, ms: seq<nat>, k: nat, item: Item, item': Item)
    requires (forall j :: 0 <= j < |ms| ==> Belongs(orig, ms[j], item)) && Belongs(orig, k, item)
    requires item' == item.(numMerged := item'.numMerged, pshSet := item'.pshSet)
    requires InSequence(orig, ms, item)
    requires item.tcp ==> SeqNum(orig, k, item) == (item.sentSeq + item.gsoSize * |ms|) % 0x1_0000_0000
    ensures (forall j :: 0 <= j < |ms| + 1 ==> Belongs(orig, (ms + [k])[j], item'))
    ensures InSequence(orig, ms + [k], item')
  {
    forall j | 0 <= j < |ms| + 1
      ensures Belongs(orig, (ms + [k])[j], item')
      ensures item.tcp ==> SeqNum(orig, (ms + [k])[j], item') == (item'.sentSeq + item'.gsoSize * j) % 0x1_0000_0000
    {
      if j < |ms| {
        assert Belongs(orig, ms[j], item);
      }
    }
  }

  /** A packet that may merge with a group is kin to all its members. */
  lemma {:induction false} KinToAll(can: CanCoalesce, packet: seq<byte>, item: Item, orig: seq<seq<byte>>,
      ms: seq<nat>, k: nat, offer: Offer)
    requires IsGroup(packet, item, orig, ms) && Offers(orig, k, offer, item) && can != Unavailable
    requires Allows(can, orig[k], offer, item, packet)
    ensures Kin(orig[k], orig[k], item) && forall j :: 0 <= j < |ms| ==>
      Kin(orig[k], orig[ms[j]], item) && Kin(orig[ms[j]], orig[k], item)
  {
    hide Even, Joined, InSequence, KeyOf;
    var first := orig[ms[0]];
    assert Belongs(orig, ms[0], item) && Belongs(orig, k, item);
    assert packet[0] == first[0];
    assert Kin(orig[k], first, item) by {
      if item.tcp {
        assert TcpOptions(packet, item) == TcpOptions(first, item);
      }
    }
    forall j | 0 <= j < |ms| ensures Kin(orig[k], orig[ms[j]], item) && Kin(orig[ms[j]], orig[k], item) {
      assert Kin(first, orig[ms[j]], item);
    }
  }

  lemma KindredWith(orig: seq<seq<byte>>, ms: seq<nat>, k: nat, ms': seq<nat>, item: Item, item': Item)
    requires Kindred(orig, ms, item) && k < |orig| && (ms' == ms + [k] || ms' == [k] + ms)
    requires item' == item.(numMerged := item'.numMerged, sentSeq := item'.sentSeq, gsoSize := item'.gsoSize,
      pshSet := item'.pshSet)
    requires Kin(orig[k], orig[k], item) && forall j :: 0 <= j < |ms| ==>
      ms[j] < |orig| && Kin(orig[k], orig[ms[j]], item) && Kin(orig[ms[j]], orig[k], item)
    ensures Kindred(orig, ms', item')
  {
    forall i, j | 0 <= i < |ms'| && 0 <= j < |ms'| ensures ms'[i] < |orig| && ms'[j] < |orig|
      && Kin(orig[ms'[i]], orig[ms'[j]], item') {
      assert ms'[i] == k || ms'[i] in ms;
      assert ms'[j] == k || ms'[j] in ms;
    }
  }

  lemma AppendNeeds(pkt: seq<byte>, offer: Offer, item: Item, packet: seq<byte>)
    requires Allows(Append, pkt, offer, item, packet) && (item.tcp ==> item.thLen == offer.thLen)
    requires (!item.tcp ==> item.thLen == UDPH_LEN)
    ensures (|packet| - item.HeadersLen()) % item.gsoSize == 0 && offer.gsoSize <= item.gsoSize
    ensures item.tcp ==> offer.seqNum == (item.sentSeq + LhsLen(item)) % 0x1_0000_0000 && !item.pshSet
  {
  }

  lemma PrependNeeds(pkt: seq<byte>, offer: Offer, item: Item, packet: seq<byte>)
    requires Allows(Prepend, pkt, offer, item, packet)
    ensures item.tcp && item.sentSeq == (offer.seqNum + offer.gsoSize) % 0x1_0000_0000
    ensures offer.gsoSize >= item.gsoSize && (offer.gsoSize > item.gsoSize ==> item.numMerged == 0) && !offer.pshSet
  {
  }

  lemma MoreKindred(can: CanCoalesce, packet: seq<byte>, item: Item, orig: seq<seq<byte>>, ms: seq<nat>, k: nat,
      offer: Offer, ms': seq<nat>, item': Item)
    requires IsGroup(packet, item, orig, ms) && Offers(orig, k, offer, item) && can != Unavailable
    requires Allows(can, orig[k], offer, item, packet) && (ms' == ms + [k] || ms' == [k] + ms)
    requires item'
      == item.(numMerged := item'.numMerged, sentSeq := item'.sentSeq, gsoSize := item'.gsoSize, pshSet := item'.pshSet)
    ensures Kindred(orig, ms', item')
  {
    hide Kin, Kindred, KeyOf, Joined, Even, InSequence, HeadersOf, Allows;
    KinToAll(can, packet, item, orig, ms, k, offer);
    KindredWith(orig, ms, k, ms', item, item');
  }

  lemma AppendMembers(packet: seq<byte>, item: Item, orig: seq<seq<byte>>, ms: seq<nat>, k: nat, offer: Offer,
      item': Item)
    requires IsGroup(packet, item, orig, ms) && Offers(orig, k, offer, item)
    requires Allows(Append, orig[k], offer, item, packet)
    requires item'.numMerged == item.numMerged + 1
    requires item' == item.(numMerged := item'.numMerged, pshSet := item'.pshSet)
    ensures Members(item', orig, ms + [k])
    ensures Joined(orig, ms + [k], item.HeadersLen())
      == Joined(orig, ms, item.HeadersLen()) + Payload(orig, k, item.HeadersLen())
  {
    hide Allows, Kin, Kindred, KeyOf, Joined, Even, InSequence, SeqNum, LhsLen;
    AppendNeeds(orig[k], offer, item, packet);
    GroupFull(packet, item, orig, ms);
    AppendEven(orig, ms, k, item.HeadersLen(), item.gsoSize);
    AppendInSequence(orig, ms, k, item, item');
    MoreKindred(Append, packet, item, orig, ms, k, offer, ms + [k], item');
  }

  /** Appending what may be appended makes the group of the members and the new packet last. */
  lemma AppendKeepsGroup(packet: seq<byte>, item: Item, orig: seq<seq<byte>>, ms: seq<nat>, k: nat, offer: Offer,
      item': Item, flagged: seq<byte>)
    requires IsGroup(packet, item, orig, ms) && Offers(orig, k, offer, item)
    requires Allows(Append, orig[k], offer, item, packet)
    requires |packet| + offer.gsoSize <= 0xffff
    requires item'.numMerged == item.numMerged + 1
    requires item' == item.(numMerged := item'.numMerged, pshSet := item'.pshSet)
    requires |flagged| == |packet| && HeadersOf(flagged, packet, item)
    requires flagged[item.HeadersLen()..] == packet[item.HeadersLen()..]
    ensures IsGroup(Appended(flagged, orig[k], item.HeadersLen()), item', orig, ms + [k])
  {
    var h := item.HeadersLen();
    AppendMembers(packet, item, orig, ms, k, offer, item');
    hide Allows, Kin, Kindred, KeyOf, Joined, Even, InSequence, Offers, SeqNum;
    var merged := Appended(flagged, orig[k], h);
    assert merged[h..] == flagged[h..] + orig[k][h..];
    assert (ms + [k])[0] == ms[0];
  }

  function Prepended(packet: seq<byte>, pkt: seq<byte>, h: nat): seq<byte>
    requires h <= |packet|
  {
    pkt + packet[h..]
  }

  lemma PrependEven(orig: seq<seq<byte>>, ms: seq<nat>, k: nat, h: nat, g: nat, g': nat)
    requires Long(orig, ms, h) && Even(orig, ms, h, g) && k < |orig| && h <= |orig[k]|
    requires |Payload(orig, k, h)| == g' >= g
    requires g' > g ==> |ms| == 1
    ensures Long(orig, [k] + ms, h) && Even(orig, [k] + ms, h, g')
    ensures Joined(orig, [k] + ms, h) == Payload(orig, k, h) + Joined(orig, ms, h)
  {
    JoinedFront(orig, k, ms, h);
  }

  lemma NextInSequence(s: nat, g: nat, j: nat)
    ensures ((s + g) % 0x1_0000_0000 + g * j) % 0x1_0000_0000 == (s + g * (j + 1)) % 0x1_0000_0000
  {
    Product(g, j);
    var x, y := s + g, g * j;
    assert (x % 0x1_0000_0000 + y) % 0x1_0000_0000 == (x + y) % 0x1_0000_0000;
  }

  lemma PrependInSequence(orig: seq<seq<byte>>, ms: seq<nat>, k: nat, item: Item, item': Item, j: nat)
    requires j < |ms| && Belongs(orig, ms[j], item) && item.tcp
    requires item' == item.(numMerged := item'.numMerged, sentSeq := item'.sentSeq, gsoSize := item'.gsoSize)
    requires SeqNum(orig, ms[j], item) == (item.sentSeq + item.gsoSize * j) % 0x1_0000_0000
    requires item.sentSeq == (item'.sentSeq + item'.gsoSize) % 0x1_0000_0000
    requires (item'.gsoSize == item.gsoSize || j == 0)
    ensures Belongs(orig, ms[j], item')
    ensures SeqNum(orig, ms[j], item') == (item'.sentSeq + item'.gsoSize * (j + 1)) % 0x1_0000_0000
  {
    NextInSequence(item'.sentSeq, item'.gsoSize, j);
    if j == 0 {
      assert item.gsoSize * j == 0 == item'.gsoSize * j;
    }
  }

  lemma SeqNumSame(orig: seq<seq<byte>>, k: nat, item: Item, item': Item)
    requires Belongs(orig, k, item) && item.tcp
    requires item' == item.(numMerged := item'.numMerged, sentSeq := item'.sentSeq, gsoSize := item'.gsoSize)
    ensures Belongs(orig, k, item') && SeqNum(orig, k, item') == SeqNum(orig, k, item)
  {
  }

  lemma PrependAllInSequence(orig: seq<seq<byte>>, ms: seq<nat>, k: nat, item: Item, item': Item)
    requires item.tcp && (forall j :: 0 <= j < |ms| ==> Belongs(orig, ms[j], item)) && Belongs(orig, k, item)
    requires item' == item.(numMerged := item'.numMerged, sentSeq := SeqNum(orig, k, item), gsoSize := item'.gsoSize)
    requires InSequence(orig, ms, item)
    requires item.sentSeq == (item'.sentSeq + item'.gsoSize) % 0x1_0000_0000
    requires (item'.gsoSize == item.gsoSize || |ms| == 1)
    ensures forall j :: 0 <= j < |ms| + 1 ==> Belongs(orig, ([k] + ms)[j], item')
    ensures InSequence(orig, [k] + ms, item')
  {
    hide KeyOf, SeqNum, Belongs;
    var all := [k] + ms;
    forall j | 0 <= j < |all|
      ensures Belongs(orig, all[j], item')
      ensures SeqNum(orig, all[j], item') == (item'.sentSeq + item'.gsoSize * j) % 0x1_0000_0000
    {
      if j == 0 {
        FrontInSequence(orig, k, item, item');
      } else {
        PrependInSequence(orig, ms, k, item, item', j - 1);
      }
    }
  }

  lemma FrontInSequence(orig: seq<seq<byte>>, k: nat, item: Item, item': Item)
    requires Belongs(orig, k, item) && item.tcp
    requires item' == item.(numMerged := item'.numMerged, sentSeq := SeqNum(orig, k, item), gsoSize := item'.gsoSize)
    ensures Belongs(orig, k, item')
    ensures SeqNum(orig, k, item') == (item'.sentSeq + item'.gsoSize * 0) % 0x1_0000_0000
  {
    SeqNumSame(orig, k, item, item');
    hide KeyOf, SeqNum;
  }

  lemma OwnHeaders(pkt: seq<byte>, more: seq<byte>, item: Item)
    requires item.Sized() && item.HeadersLen() <= |pkt|
    ensures HeadersOf(pkt + more, pkt, item)
  {
  }

  lemma PrependMembers(packet: seq<byte>, item: Item, orig: seq<seq<byte>>, ms: seq<nat>, k: nat, offer: Offer,
      item': Item)
    requires IsGroup(packet, item, orig, ms) && Offers(orig, k, offer, item)
    requires Allows(Prepend, orig[k], offer, item, packet)
    requires item'.numMerged == item.numMerged + 1
    requires item' == item.(numMerged := item'.numMerged, sentSeq := offer.seqNum, gsoSize := offer.gsoSize)
    ensures Members(item', orig, [k] + ms)
    ensures Joined(orig, [k] + ms, item.HeadersLen())
      == Payload(orig, k, item.HeadersLen()) + Joined(orig, ms, item.HeadersLen())
  {
    hide Allows, Kin, Kindred, KeyOf, Joined, Even, InSequence, SeqNum;
    PrependNeeds(orig[k], offer, item, packet);
    PrependEven(orig, ms, k, item.HeadersLen(), item.gsoSize, offer.gsoSize);
    PrependAllInSequence(orig, ms, k, item, item');
    MoreKindred(Prepend, packet, item, orig, ms, k, offer, [k] + ms, item');
  }

  /** Prepending what may be prepended makes the group of the new packet first and the members. */
  lemma PrependKeepsGroup(packet: seq<byte>, item: Item, orig: seq<seq<byte>>, ms: seq<nat>, k: nat, offer: Offer,
      item': Item)
    requires IsGroup(packet, item, orig, ms) && Offers(orig, k, offer, item) && item.tcp
    requires Allows(Prepend, orig[k], offer, item, packet)
    requires |packet| + offer.gsoSize <= 0xffff && item'.numMerged == item.numMerged + 1
    requires item' == item.(numMerged := item'.numMerged, sentSeq := offer.seqNum, gsoSize := offer.gsoSize)
    ensures IsGroup(Prepended(packet, orig[k], item.HeadersLen()), item', orig, [k] + ms)
  {
    var h := item.HeadersLen();
    PrependMembers(packet, item, orig, ms, k, offer, item');
    hide Allows, Kin, Kindred, KeyOf, Joined, Even, InSequence, SeqNum;
    var merged := Prepended(packet, orig[k], h);
    assert merged[h..] == orig[k][h..] + packet[h..];
    assert ([k] + ms)[0] == k;
    OwnHeaders(orig[k], packet[h..], item');
  }

  // ----- flags

  lemma AppendFlagged(packet: seq<byte>, item: Item, orig: seq<seq<byte>>, ms: seq<nat>, k: nat, offer: Offer,
      item': Item, flagged: seq<byte>)
    requires item.Sized() && item.HeadersLen() <= |packet| && Members(item, orig, ms) && Members(item', orig, ms + [k])
    requires Flagged(packet, item, orig, ms) && Offers(orig, k, offer, item) && (item.tcp ==> !item.pshSet)
    requires item' == item.(numMerged := item'.numMerged, pshSet := item'.pshSet)
    requires item.tcp ==> item'.pshSet == offer.pshSet
    requires |flagged| == |packet| && (item.tcp ==> Flags(flagged, item) == AckFlags(offer.pshSet))
    requires forall p :: 0 <= p < |ms| ==> ms[p] < k
    ensures Flagged(Appended(flagged, orig[k], item.HeadersLen()), item', orig, ms + [k])
  {
    hide KeyOf, Even, InSequence, Kindred;
    if item.tcp {
      var ms' := ms + [k];
      forall j | 0 <= j < |ms'| - 1 ensures Flags(orig[ms'[j]], item') == AckFlags(false) {
        assert ms'[j] == ms[j];
      }
    }
  }

  lemma PrependFlagged(packet: seq<byte>, item: Item, orig: seq<seq<byte>>, ms: seq<nat>, k: nat, offer: Offer,
      item': Item)
    requires item.Sized() && item.HeadersLen() <= |packet| && Members(item, orig, ms) && Members(item', orig, [k] + ms)
    requires Flagged(packet, item, orig, ms) && Offers(orig, k, offer, item) && item.tcp && !offer.pshSet
    requires item' == item.(numMerged := item'.numMerged, sentSeq := item'.sentSeq, gsoSize := item'.gsoSize)
    requires forall p :: 0 <= p < |ms| ==> ms[p] < k
    ensures Flagged(Prepended(packet, orig[k], item.HeadersLen()), item', orig, [k] + ms)
  {
    hide KeyOf, Even, InSequence, Kindred;
    var ms' := [k] + ms;
    forall j | 0 <= j < |ms'| - 1 ensures Flags(orig[ms'[j]], item') == AckFlags(false) {
      if j > 0 {
        assert ms'[j] == ms[j - 1];
      }
    }
  }
}
