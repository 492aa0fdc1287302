/** Reading and writing header fields, and the checksums over them. */
module PacketFields {
  import opened Bitwise
  import opened Checksum

  const IPV4_SRC_ADDR_OFFSET := 12
  const IPV6_SRC_ADDR_OFFSET := 8
  const TCP_FLAGS_OFFSET := 13
  const IPPROTO_TCP := 6
  const IPPROTO_UDP := 17

  function Put16(b: seq<byte>, at: nat, v: uint16): (r: seq<byte>)
    requires at + 2 <= |b|
    ensures |r| == |b| && U16(r, at) == v
    ensures forall k :: 0 <= k < |b| && k != at && k != at + 1 ==> r[k] == b[k]
  {
    b[at := v / 0x100][at + 1 := v % 0x100]
  }

  function Put32(b: seq<byte>, at: nat, v: uint32): (r: seq<byte>)
    requires at + 4 <= |b|
    ensures |r| == |b| && U32(r, at) == v
    ensures forall k :: 0 <= k < |b| && !(at <= k < at + 4) ==> r[k] == b[k]
  {
    Put16(Put16(b, at, v / 0x1_0000), at + 2, v % 0x1_0000)
  }

  /** Writing a field that was zero adds it to the sum. */
  lemma SumOfPut(b: seq<byte>, at: nat, v: uint16)
    requires at + 2 <= |b| && at % 2 == 0 && b[at] == b[at + 1] == 0
    ensures Sum(Put16(b, at, v)) == Sum(b) + v
  {
    hide Sum, Put16;
    var r := Put16(b, at, v);
    var front, back := b[..at], b[at + 2..];
    assert b == front + (b[at..at + 2] + back);
    assert r == front + (r[at..at + 2] + back);
    SumSplit(front, b[at..at + 2] + back);
    SumSplit(front, r[at..at + 2] + back);
    SumSplit(b[at..at + 2], back);
    SumSplit(r[at..at + 2], back);
    SumOfPair(b[at..at + 2]);
    SumOfPair(r[at..at + 2]);
  }

  lemma SumOfPair(b: seq<byte>)
    requires |b| == 2
    ensures Sum(b) == U16(b, 0)
  {
    assert Sum(b) == U16(b, 0) + Sum(b[2..]);
    assert b[2..] == [];
  }

  function SrcAt(isV6: bool): nat {
    if isV6 then IPV6_SRC_ADDR_OFFSET else IPV4_SRC_ADDR_OFFSET
  }

  function AddrLen(isV6: bool): nat {
    if isV6 then 16 else 4
  }

  function MinIpHeader(isV6: bool): nat {
    if isV6 then 40 else 20
  }

  function Src(pkt: seq<byte>, isV6: bool): seq<byte>
    requires |pkt| >= MinIpHeader(isV6)
  {
    pkt[SrcAt(isV6)..SrcAt(isV6) + AddrLen(isV6)]
  }

  function Dst(pkt: seq<byte>, isV6: bool): seq<byte>
    requires |pkt| >= MinIpHeader(isV6)
  {
    pkt[SrcAt(isV6) + AddrLen(isV6)..SrcAt(isV6) + 2 * AddrLen(isV6)]
  }

  /** What the transport checksum of a packet covers, in 16-bit words: RFC 1071's
      sum over the pseudo header and the segment. */
  ghost function TransportSum(pkt: seq<byte>, iphLen: nat, protocol: uint8, isV6: bool): nat
    requires MinIpHeader(isV6) <= iphLen <= |pkt| <= 0xffff
  {
    Sum(Src(pkt, isV6)) + Sum(Dst(pkt, isV6)) + protocol + (|pkt| - iphLen) + Sum(pkt[iphLen..])
  }

  /** The receiver's test. */
  ghost predicate Verifies(pkt: seq<byte>, iphLen: nat, protocol: uint8, isV6: bool) {
    MinIpHeader(isV6) <= iphLen <= |pkt| <= 0xffff && Ones(TransportSum(pkt, iphLen, protocol, isV6)) == 0xffff
  }

  lemma Replace(b: seq<byte>, n: nat, m: nat, m': nat)
    requires m == n + WordSum(b) && m' == n + Sum(b)
    ensures Ones(m) == Ones(m')
  {
    OnesOfWordSum(b, n);
  }

  lemma PseudoIsSum(src: seq<byte>, dst: seq<byte>, n: nat, m: nat, m': nat)
    requires m == n + WordSum(src) + WordSum(dst) && m' == n + Sum(src) + Sum(dst)
    ensures Ones(m) == Ones(m')
  {
    var k := n + WordSum(dst) + Sum(src);
    Replace(src, n + WordSum(dst), m, k);
    Replace(dst, n + Sum(src), k, m');
  }

  /** The checksum over a segment and its pseudo header. */
  method TransportChecksum(pkt: seq<byte>, iphLen: nat, protocol: uint8, isV6: bool) returns (r: uint16)
    requires MinIpHeader(isV6) <= iphLen <= |pkt| <= 0xffff
    ensures r == Ones(TransportSum(pkt, iphLen, protocol, isV6))
  {
    var len: uint16 := |pkt| - iphLen;
    var pseudo := PseudoHeaderChecksumNoFold(protocol, Src(pkt, isV6), Dst(pkt, isV6), len);
    ghost var rest := Sum(pkt[iphLen..]);
    PseudoIsSum(Src(pkt, isV6), Dst(pkt, isV6), protocol + len + rest, pseudo + rest,
      TransportSum(pkt, iphLen, protocol, isV6));
    r := Checksum.Checksum(pkt[iphLen..], pseudo);
  }

  method ChecksumValid(pkt: seq<byte>, iphLen: nat, protocol: uint8, isV6: bool) returns (ok: bool)
    requires MinIpHeader(isV6) <= iphLen <= |pkt| <= 0xffff
    ensures ok <==> Verifies(pkt, iphLen, protocol, isV6)
  {
    var sum := TransportChecksum(pkt, iphLen, protocol, isV6);
    ok := Complement(sum) == 0;
  }

  /** Writing the complement of the sum into the zeroed checksum field makes the packet verify. */
  lemma SealVerifies(pkt: seq<byte>, iphLen: nat, at: nat, protocol: uint8, isV6: bool)
    requires MinIpHeader(isV6) <= iphLen <= |pkt| <= 0xffff && iphLen + at + 2 <= |pkt| && at % 2 == 0
    requires pkt[iphLen + at] == pkt[iphLen + at + 1] == 0
    ensures Verifies(Put16(pkt, iphLen + at, Complement(Ones(TransportSum(pkt, iphLen, protocol, isV6)))), iphLen,
      protocol, isV6)
  {
    var sum := TransportSum(pkt, iphLen, protocol, isV6);
    var r := Put16(pkt, iphLen + at, Complement(Ones(sum)));
    assert r[iphLen..] == Put16(pkt[iphLen..], at, Complement(Ones(sum)));
    SumOfPut(pkt[iphLen..], at, Complement(Ones(sum)));
    assert Src(r, isV6) == Src(pkt, isV6) && Dst(r, isV6) == Dst(pkt, isV6);
    ComplementCloses(sum);
  }

  lemma SealHeader(hdr: seq<byte>)
    requires |hdr| >= 20 && hdr[10] == hdr[11] == 0
    ensures Ones(Sum(Put16(hdr, 10, Complement(Ones(Sum(hdr)))))) == 0xffff
  {
    SumOfPut(hdr, 10, Complement(Ones(Sum(hdr))));
    ComplementCloses(Sum(hdr));
  }
}

/** Splitting one large packet into segments. */
module Gso {
  import opened Bitwise
  import opened Checksum
  import opened PacketFields

  datatype GsoType = GsoNone | GsoTcpV4 | GsoTcpV6 | GsoUdpL4 | GsoOther

  datatype VirtioNetHdr = VirtioNetHdr(needsCsum: bool, gsoType: GsoType, hdrLen: uint16, gsoSize: uint16,
      csumStart: uint16, csumOffset: uint16) {
    predicate Tcp() {
      gsoType == GsoTcpV4 || gsoType == GsoTcpV6
    }

    function Protocol(): uint8 {
      if Tcp() then IPPROTO_TCP else IPPROTO_UDP
    }

    /** The header describes a TCP or UDP packet of this length. */
    predicate Describes(len: nat, isV6: bool) {
      && MinIpHeader(isV6) <= csumStart && hdrLen <= len <= 0xffff
      && (if Tcp() then csumOffset == 16 && csumStart + 20 <= hdrLen else csumOffset == 6 && csumStart + 8 == hdrLen)
    }
  }

  const FIN_PSH := 0x09

  /** A byte with the FIN and PSH flags cleared. */
  function ClearFlags(flags: byte): byte {
    And(flags, 0xff - FIN_PSH)
  }

  function Transport(packet: seq<byte>, hdr: VirtioNetHdr): seq<byte>
    requires hdr.csumStart <= hdr.hdrLen <= |packet|
  {
    packet[hdr.csumStart..hdr.hdrLen]
  }

  /** A byte of one of the two checksums. */
  predicate InChecksums(k: int, hdr: VirtioNetHdr, isV6: bool) {
    (!isV6 && 10 <= k < 12) || 0 <= k - hdr.csumStart - hdr.csumOffset < 2
  }

  /** Everything promised of segment i: its lengths, its identification, its
      sequence number and flags, its payload, and that both checksums verify. */
  ghost predicate IsSegment(out: seq<byte>, packet: seq<byte>, hdr: VirtioNetHdr, i: nat, lo: nat, hi: nat, isV6: bool)
    requires hdr.Describes(|packet|, isV6) && hdr.hdrLen <= lo <= hi <= |packet|
  {
    && |out| == hdr.hdrLen + (hi - lo)
    && out[hdr.hdrLen..] == packet[lo..hi]
    && IsIpHeader(out[..hdr.csumStart], packet[..hdr.csumStart], i, |out|, isV6)
    && (if hdr.Tcp() then IsTcpHeader(Transport(out, hdr), Transport(packet, hdr), hdr.gsoSize * i, hi == |packet|)
        else IsUdpHeader(Transport(out, hdr), Transport(packet, hdr), hi - lo))
    && Verifies(out, hdr.csumStart, hdr.Protocol(), isV6)
  }

  /** The IP header: lengths and identification rewritten, everything else kept. */
  ghost predicate IsIpHeader(ip: seq<byte>, was: seq<byte>, i: nat, totalLen: nat, isV6: bool)
    requires |was| >= MinIpHeader(isV6)
  {
    && |ip| == |was| <= totalLen <= 0xffff
    && (forall k :: 0 <= k < |ip| && !(if isV6 then 4 <= k < 6 else 2 <= k < 6 || 10 <= k < 12) ==> ip[k] == was[k])
    && (if isV6 then U16(ip, 4) == totalLen - |ip| else
          && U16(ip, 2) == totalLen
          && U16(ip, 4) == (U16(was, 4) + i) % 0x1_0000
          && Ones(Sum(ip)) == 0xffff)
  }

  /** The flags of a segment: as they were in the last; in the others FIN and PSH, bits 0 and 3, are clear. */
  ghost predicate FlagsCut(flags: byte, was: byte, last: bool) {
    forall k :: 0 <= k < 8 ==> (Bit(flags, k) <==> Bit(was, k) && (last || (k != 0 && k != 3)))
  }

  /** A TCP header: sequence number, flags and checksum rewritten, everything else kept. */
  ghost predicate IsTcpHeader(th: seq<byte>, was: seq<byte>, advance: nat, last: bool) {
    && |th| == |was| >= 20
    && U32(th, 4) == (U32(was, 4) + advance) % 0x1_0000_0000
    && FlagsCut(th[TCP_FLAGS_OFFSET], was[TCP_FLAGS_OFFSET], last)
    && (forall k :: 0 <= k < |th| && !(4 <= k < 8) && k != TCP_FLAGS_OFFSET && !(16 <= k < 18) ==> th[k] == was[k])
  }

  /** A UDP header: length and checksum rewritten, the ports kept. */
  ghost predicate IsUdpHeader(th: seq<byte>, was: seq<byte>, payloadLen: nat) {
    && |th| == |was| == 8
    && U16(th, 4) == 8 + payloadLen
    && (forall k :: 0 <= k < 4 ==> th[k] == was[k])
  }

  method SplitIpHeader(was: seq<byte>, i: nat, totalLen: uint16, isV6: bool) returns (ip: seq<byte>)
    requires MinIpHeader(isV6) <= |was| <= totalLen && (!isV6 ==> was[10] == was[11] == 0)
    ensures IsIpHeader(ip, was, i, totalLen, isV6)
  {
    hide Ones, Sum, WordSum;
    ip := was;
    if isV6 {
      ip := Put16(ip, 4, totalLen - |ip|);
    } else {
      if i > 0 {
        ip := Put16(ip, 4, (U16(ip, 4) + i) % 0x1_0000);
      }
      ip := Put16(ip, 2, totalLen);
      var csum := Checksum.Checksum(ip, 0);
      SealHeader(ip);
      ip := Put16(ip, 10, Complement(csum));
    }
  }

  /** A product of 16-bit numbers, which wraps unless it fits. */
  function Product16(x: uint16, i: nat): (r: uint16)
    ensures x * i <= 0xffff ==> r == x * i
  {
    x * i % 0x1_0000
  }

  lemma SealedTcpHeader(th: seq<byte>, was: seq<byte>, advance: nat, last: bool, v: uint16)
    requires IsTcpHeader(th, was, advance, last)
    ensures IsTcpHeader(Put16(th, 16, v), was, advance, last)
  {
  }

  lemma SealedUdpHeader(th: seq<byte>, was: seq<byte>, payloadLen: nat, v: uint16)
    requires IsUdpHeader(th, was, payloadLen)
    ensures IsUdpHeader(Put16(th, 6, v), was, payloadLen)
  {
  }

  method SplitTcpHeader(was: seq<byte>, advance: uint16, last: bool) returns (th: seq<byte>)
    requires |was| >= 20
    ensures IsTcpHeader(th, was, advance, last) && th[16] == was[16] && th[17] == was[17]
  {
    var firstTcpSeqNum := U32(was, 4);
    th := Put32(was, 4, (firstTcpSeqNum + advance) % 0x1_0000_0000);
    if !last {
      CutByMask(th[TCP_FLAGS_OFFSET]);
      SetFlags(th, ClearFlags(th[TCP_FLAGS_OFFSET]));
      th := th[TCP_FLAGS_OFFSET := ClearFlags(th[TCP_FLAGS_OFFSET])];
    }
  }

  /** The mask has every bit but those of FIN and PSH. */
  lemma MaskBits(k: nat)
    requires k < 8
    ensures Bit(0xff - FIN_PSH, k) <==> k != 0 && k != 3
  {
    assert Bit(0xf6, 0) == false && Bit(0xf6, 1) == Bit(0x7b, 0) && Bit(0xf6, 2) == Bit(0x7b, 1) == Bit(0x3d, 0);
    if k >= 3 {
      assert Bit(0xf6, k) == Bit(0x7b, k - 1) == Bit(0x3d, k - 2) == Bit(0x1e, k - 3);
    }
    if k >= 5 {
      assert Bit(0x1e, k - 3) == Bit(0xf, k - 4) == Bit(0x7, k - 5);
    }
  }

  lemma CutByMask(flags: byte)
    ensures FlagsCut(ClearFlags(flags), flags, false)
  {
    forall k | 0 <= k < 8 ensures Bit(ClearFlags(flags), k) <==> Bit(flags, k) && k != 0 && k != 3 {
      BitOfAnd(flags, 0xff - FIN_PSH, k);
      MaskBits(k);
    }
  }

  lemma SetFlags(th: seq<byte>, flags: byte)
    requires |th| >= 20
    ensures U32(th[TCP_FLAGS_OFFSET := flags], 4) == U32(th, 4)
  {
  }

  method SplitUdpHeader(was: seq<byte>, segmentDataLen: nat) returns (th: seq<byte>)
    requires |was| == 8 && 8 + segmentDataLen <= 0xffff
    ensures IsUdpHeader(th, was, segmentDataLen) && th[6] == was[6] && th[7] == was[7]
  {
    th := Put16(was, 4, segmentDataLen + 8);
  }

  /** Writing the checksum touches only the transport header's own field. */
  lemma SealedParts(ip: seq<byte>, th: seq<byte>, payload: seq<byte>, at: nat, v: uint16)
    requires at + 2 <= |th|
    ensures var out := Put16(ip + th + payload, |ip| + at, v);
      && out[..|ip|] == ip
      && out[|ip|..|ip| + |th|] == Put16(th, at, v)
      && out[|ip| + |th|..] == payload
  {
  }

  /** Segment i, from the packet with its checksum fields cleared. */
  method SplitSegment(packet: seq<byte>, hdr: VirtioNetHdr, i: nat, lo: nat, hi: nat,
      isV6: bool) returns (out: seq<byte>)
    requires hdr.Describes(|packet|, isV6) && hdr.hdrLen <= lo <= hi <= |packet| && hdr.gsoSize * i <= 0xffff
    requires Cleared(packet, hdr, isV6)
    ensures IsSegment(out, packet, hdr, i, lo, hi, isV6)
  {
    var totalLen := hdr.hdrLen + (hi - lo);
    var ip := SplitIpHeader(packet[..hdr.csumStart], i, totalLen, isV6);
    var th := Transport(packet, hdr);
    if hdr.Tcp() {
      th := SplitTcpHeader(th, Product16(hdr.gsoSize, i), hi == |packet|);
    } else {
      th := SplitUdpHeader(th, hi - lo);
    }
    ghost var v;
    out, v := Sealed(ip, th, packet[lo..hi], hdr.csumOffset, hdr.Protocol(), isV6);
    if hdr.Tcp() {
      SealedTcpHeader(th, Transport(packet, hdr), hdr.gsoSize * i, hi == |packet|, v);
    } else {
      SealedUdpHeader(th, Transport(packet, hdr), hi - lo, v);
    }
  }

  /** The three parts put together, with the transport checksum over them. */
  method Sealed(ip: seq<byte>, th: seq<byte>, payload: seq<byte>, at: nat, protocol: uint8, isV6: bool)
    returns (out: seq<byte>, ghost v: uint16)
    requires MinIpHeader(isV6) <= |ip| && |ip| + |th| + |payload| <= 0xffff
    requires at % 2 == 0 && at + 2 <= |th| && th[at] == th[at + 1] == 0
    ensures |out| == |ip| + |th| + |payload| && Verifies(out, |ip|, protocol, isV6)
    ensures out[..|ip|] == ip && out[|ip| + |th|..] == payload
    ensures out[|ip|..|ip| + |th|] == Put16(th, at, v)
  {
    out := ip + th + payload;
    var csum := TransportChecksum(out, |ip|, protocol, isV6);
    SealVerifies(out, |ip|, at, protocol, isV6);
    SealedParts(ip, th, payload, at, Complement(csum));
    out, v := Put16(out, |ip| + at, Complement(csum)), Complement(csum);
  }

  predicate Cleared(packet: seq<byte>, hdr: VirtioNetHdr, isV6: bool)
    requires hdr.Describes(|packet|, isV6)
  {
    && (!isV6 ==> packet[10] == packet[11] == 0)
    && packet[hdr.csumStart + hdr.csumOffset] == packet[hdr.csumStart + hdr.csumOffset + 1] == 0
  }

  /** The same segment serves the packet as it came and as it is with its checksum fields cleared. */
  lemma SegmentOfOriginal(out: seq<byte>, packet: seq<byte>, cleared: seq<byte>, hdr: VirtioNetHdr, i: nat, lo: nat,
      hi: nat, isV6: bool)
    requires hdr.Describes(|packet|, isV6) && hdr.hdrLen <= lo <= hi <= |packet| == |cleared|
    requires forall k :: 0 <= k < |packet| && !InChecksums(k, hdr, isV6) ==> packet[k] == cleared[k]
    requires IsSegment(out, cleared, hdr, i, lo, hi, isV6)
    ensures IsSegment(out, packet, hdr, i, lo, hi, isV6)
  {
    assert packet[lo..hi] == cleared[lo..hi];
    var th, th' := Transport(packet, hdr), Transport(cleared, hdr);
    assert forall k :: 0 <= k < |th| && !(hdr.csumOffset <= k < hdr.csumOffset + 2) ==> th[k] == th'[k];
    var ip, ip' := packet[..hdr.csumStart], cleared[..hdr.csumStart];
    assert forall k :: 0 <= k < |ip| && !(!isV6 && 10 <= k < 12) ==> ip[k] == ip'[k];
  }

  // ----- the whole packet

  function Lo(hdr: VirtioNetHdr, i: nat): (r: nat)
    ensures r >= hdr.hdrLen
  {
    hdr.hdrLen + hdr.gsoSize * i
  }

  function Hi(hdr: VirtioNetHdr, i: nat, len: nat): nat {
    if Lo(hdr, i) + hdr.gsoSize > len then len else Lo(hdr, i) + hdr.gsoSize
  }

  lemma LoStep(hdr: VirtioNetHdr, i: nat)
    ensures Lo(hdr, i + 1) == Lo(hdr, i) + hdr.gsoSize
  {
  }

  lemma {:induction false} LoMonotone(hdr: VirtioNetHdr, i: nat, j: nat)
    requires i <= j
    ensures Lo(hdr, i) <= Lo(hdr, j)
  {
    if i < j {
      LoMonotone(hdr, i, j - 1);
      LoStep(hdr, j - 1);
    }
  }

  /** The first segments of a packet. */
  ghost predicate AreSegments(packets: seq<seq<byte>>, packet: seq<byte>, hdr: VirtioNetHdr, isV6: bool)
    requires hdr.Describes(|packet|, isV6)
  {
    forall i :: 0 <= i < |packets| ==>
      Lo(hdr, i) < |packet| && IsSegment(packets[i], packet, hdr, i, Lo(hdr, i), Hi(hdr, i, |packet|), isV6)
  }

  /** All the segments of a packet: nothing of it is left over. */
  ghost predicate IsSplit(packets: seq<seq<byte>>, packet: seq<byte>, hdr: VirtioNetHdr, isV6: bool)
    requires hdr.Describes(|packet|, isV6)
  {
    AreSegments(packets, packet, hdr, isV6) && |packet| <= Lo(hdr, |packets|)
  }

  /** The packet fits into `limit` buffers, a segment each. */
  predicate FitsInto(packet: seq<byte>, hdr: VirtioNetHdr, limit: nat) {
    |packet| <= Lo(hdr, limit)
  }

  function Clear(packet: seq<byte>, hdr: VirtioNetHdr, isV6: bool): (r: seq<byte>)
    requires hdr.Describes(|packet|, isV6)
    ensures |r| == |packet| && Cleared(r, hdr, isV6)
    ensures forall k :: 0 <= k < |packet| && !InChecksums(k, hdr, isV6) ==> packet[k] == r[k]
  {
    var b := if isV6 then packet else packet[10 := 0][11 := 0];
    b[hdr.csumStart + hdr.csumOffset := 0][hdr.csumStart + hdr.csumOffset + 1 := 0]
  }

  /** Splits the packet into segments, one for each output buffer; the packets
      are what is left in the buffers, n and ok what is reported. */
  method GsoSplit(packet: seq<byte>, hdr: VirtioNetHdr, limit: nat, isV6: bool) returns (packets: seq<seq<byte>>,
      n: int, ok: bool)
    requires hdr.Describes(|packet|, isV6)
    ensures ok <==> FitsInto(packet, hdr, limit)
    ensures ok ==> n == |packets| <= limit && IsSplit(packets, packet, hdr, isV6)
    ensures !ok ==> n == limit - 1 && |packets| == limit && AreSegments(packets, packet, hdr, isV6)
  {
    hide IsSegment, Clear;
    var cleared := Clear(packet, hdr, isV6);
    packets := [];
    var next := hdr.hdrLen as nat;
    var i := 0;
    while next < |packet|
      invariant next == Lo(hdr, i) && i == |packets| <= limit
      invariant AreSegments(packets, packet, hdr, isV6)
      decreases limit - i
    {
      if i == limit {
        return packets, i - 1, false;
      }
      var end := next + hdr.gsoSize;
      if end > |packet| {
        end := |packet|;
      }
      var out := SplitSegment(cleared, hdr, i, next, end, isV6);
      SegmentOfOriginal(out, packet, cleared, hdr, i, next, end, isV6);
      packets := packets + [out];
      LoStep(hdr, i);
      next := next + hdr.gsoSize;
      i := i + 1;
    }
    LoMonotone(hdr, i, limit);
    return packets, i, true;
  }

  /** The segments' payloads, one after the other. */
  ghost function Payloads(packets: seq<seq<byte>>, hdrLen: nat): seq<byte>
    requires forall i :: 0 <= i < |packets| ==> hdrLen <= |packets[i]|
  {
    if packets == [] then [] else Payloads(packets[..|packets| - 1], hdrLen) + packets[|packets| - 1][hdrLen..]
  }

  /** Splitting loses and repeats nothing: the payloads make up the packet's. */
  lemma {:induction false} PayloadsRejoin(packets: seq<seq<byte>>, packet: seq<byte>, hdr: VirtioNetHdr, isV6: bool)
    requires hdr.Describes(|packet|, isV6) && AreSegments(packets, packet, hdr, isV6)
    ensures Payloads(packets, hdr.hdrLen)
      == packet[hdr.hdrLen..if Lo(hdr, |packets|) < |packet| then Lo(hdr, |packets|) else |packet|]
  {
    if packets != [] {
      hide IsSegment, Lo;
      var n := |packets| - 1;
      SegmentPayload(packets[n], packet, hdr, n, Lo(hdr, n), Hi(hdr, n, |packet|), isV6);
      FirstSegments(packets, packet, hdr, isV6);
      PayloadsRejoin(packets[..n], packet, hdr, isV6);
      LoStep(hdr, n);
      SlicesJoin(packet, hdr.hdrLen, Lo(hdr, n), Hi(hdr, n, |packet|));
    }
  }

  lemma SegmentPayload(out: seq<byte>, packet: seq<byte>, hdr: VirtioNetHdr, i: nat, lo: nat, hi: nat, isV6: bool)
    requires hdr.Describes(|packet|, isV6) && hdr.hdrLen <= lo <= hi <= |packet|
    requires IsSegment(out, packet, hdr, i, lo, hi, isV6)
    ensures hdr.hdrLen <= |out| && out[hdr.hdrLen..] == packet[lo..hi]
  {
  }

  lemma FirstSegments(packets: seq<seq<byte>>, packet: seq<byte>, hdr: VirtioNetHdr, isV6: bool)
    requires hdr.Describes(|packet|, isV6) && AreSegments(packets, packet, hdr, isV6)
    ensures forall i :: 0 <= i < |packets| ==> hdr.hdrLen <= |packets[i]|
  {
    hide IsSegment, Lo;
    forall i | 0 <= i < |packets| ensures hdr.hdrLen <= |packets[i]| {
      SegmentPayload(packets[i], packet, hdr, i, Lo(hdr, i), Hi(hdr, i, |packet|), isV6);
    }
  }

  lemma SlicesJoin(b: seq<byte>, x: nat, y: nat, z: nat)
    requires x <= y <= z <= |b|
    ensures b[x..y] + b[y..z] == b[x..z]
  {
  }
}
