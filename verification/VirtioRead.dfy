/** What happens to a packet read with a virtio header: checks, the transport
    header length worked out anew, and the split. */
module VirtioRead {
  import opened Bitwise
  import opened Checksum
  import opened PacketFields
  import opened Gso

  datatype Fault =
    | ReadOverflow | UnsupportedGsoType | VersionMismatch | InvalidVersion | TooShort
    | InvalidTcpHeaderLen | ShorterThanHeader | HeaderBeforeTransport | ChecksumOutside | TooManySegments

  datatype Checked = Refused(fault: Fault) | Passed(hdr: VirtioNetHdr)

  function Version(packet: seq<byte>): byte
    requires packet != []
  {
    packet[0] / 16
  }

  function Add16(x: uint16, y: nat): uint16 {
    (x + y) % 0x1_0000
  }

  predicate VersionMatches(packet: seq<byte>, hdr: VirtioNetHdr)
    requires packet != []
  {
    || (Version(packet) == 4 && (hdr.gsoType == GsoTcpV4 || hdr.gsoType == GsoUdpL4))
    || (Version(packet) == 6 && (hdr.gsoType == GsoTcpV6 || hdr.gsoType == GsoUdpL4))
  }

  /** The header length: eight bytes of UDP, or what the TCP header says of itself. */
  function TransportHeaderLen(packet: seq<byte>, hdr: VirtioNetHdr): nat
    requires hdr.Tcp() ==> |packet| > Add16(hdr.csumStart, 12)
  {
    if hdr.Tcp() then packet[Add16(hdr.csumStart, 12)] / 16 * 4 else 8
  }

  /** All checks before the split, in order; the kernel's own hdrLen is not looked at. */
  function Check(packet: seq<byte>, hdr: VirtioNetHdr): (r: Checked)
    requires packet != []
  {
    if hdr.gsoType == GsoNone || hdr.gsoType == GsoOther then Refused(UnsupportedGsoType)
    else if Version(packet) != 4 && Version(packet) != 6 then Refused(InvalidVersion)
    else if !VersionMatches(packet, hdr) then Refused(VersionMismatch)
    else if hdr.Tcp() && |packet| <= Add16(hdr.csumStart, 12) then Refused(TooShort)
    else
      var thLen := TransportHeaderLen(packet, hdr);
      if hdr.Tcp() && !(20 <= thLen <= 60) then Refused(InvalidTcpHeaderLen)
      else
        var h := hdr.(hdrLen := Add16(hdr.csumStart, thLen));
        if |packet| < h.hdrLen then Refused(ShorterThanHeader)
        else if h.hdrLen < h.csumStart then Refused(HeaderBeforeTransport)
        else if Add16(h.csumStart, h.csumOffset) + 1 >= |packet| then Refused(ChecksumOutside)
        else Passed(h)
  }

  /** The virtio header places a real IP header before the transport header and
      the checksum field where its protocol has it. */
  predicate Plausible(packet: seq<byte>, hdr: VirtioNetHdr)
    requires packet != []
  {
    MinIpHeader(Version(packet) == 6) <= hdr.csumStart && hdr.csumOffset == (if hdr.Tcp() then 16 else 6)
  }

  /** A plausible header passes exactly when the packet holds the whole transport
      header, and then it describes the packet, whatever hdrLen came with it. */
  lemma CheckExact(packet: seq<byte>, hdr: VirtioNetHdr)
    requires packet != [] && |packet| <= 0xffff && Plausible(packet, hdr)
    ensures Check(packet, hdr).Passed? <==>
      && VersionMatches(packet, hdr)
      && hdr.csumStart + (if hdr.Tcp() then 13 else 8) <= |packet|
      && (hdr.Tcp() ==> 20 <= packet[hdr.csumStart + 12] / 16 * 4 <= |packet| - hdr.csumStart)
    ensures Check(packet, hdr).Passed? ==>
      var h := Check(packet, hdr).hdr;
      && h.Describes(|packet|, Version(packet) == 6)
      && h == hdr.(hdrLen := hdr.csumStart + if hdr.Tcp() then packet[hdr.csumStart + 12] / 16 * 4 else 8)
  {
  }

  /** Which refusal it is, where the transport header starts low enough for no sum to wrap around. */
  lemma FaultExact(packet: seq<byte>, hdr: VirtioNetHdr)
    requires packet != [] && |packet| <= 0xffff && Plausible(packet, hdr) && Check(packet, hdr).Refused?
    ensures hdr.csumStart + 60 <= 0xffff ==>
      var v, at, len := packet[0] / 16, hdr.csumStart as int, |packet|;
      var known := hdr.gsoType == GsoTcpV4 || hdr.gsoType == GsoTcpV6 || hdr.gsoType == GsoUdpL4;
      var fits := (hdr.gsoType == GsoTcpV4 ==> v == 4) && (hdr.gsoType == GsoTcpV6 ==> v == 6);
      Check(packet, hdr).fault ==
        if !known then UnsupportedGsoType
        else if v != 4 && v != 6 then InvalidVersion
        else if !fits then VersionMismatch
        else if hdr.Tcp() && len <= at + 12 then TooShort
        else if hdr.Tcp() && packet[at + 12] / 16 < 5 then InvalidTcpHeaderLen
        else ShorterThanHeader
  {
  }

  datatype ReadResult = Read(packets: seq<seq<byte>>) | Failed(fault: Fault)

  /** Only the checksum field is changed, and where it held the pseudo header's sum, the
      packet now verifies; checksum fields are at even offsets. */
  ghost predicate Completed(r: seq<byte>, packet: seq<byte>, csumStart: nat, csumOffset: nat)
    requires csumStart + csumOffset + 2 <= |packet| <= 0xffff
  {
    && |r| == |packet|
    && (forall k :: 0 <= k < |r| && !(csumStart + csumOffset <= k < csumStart + csumOffset + 2) ==> r[k] == packet[k])
    && (csumOffset % 2 == 0 ==> forall protocol: uint8, isV6 ::
          Partial(packet, csumStart, csumOffset, protocol, isV6) ==> Verifies(r, csumStart, protocol, isV6))
  }

  /** Completes a partial checksum: the field holds the pseudo header's sum, and
      the segment is summed on top of it. */
  method GsoNoneChecksum(packet: seq<byte>, csumStart: uint16, csumOffset: uint16) returns (r: seq<byte>)
    requires csumStart + csumOffset + 2 <= |packet| <= 0xffff
    ensures Completed(r, packet, csumStart, csumOffset)
  {
    var at := csumStart + csumOffset;
    var initial := U16(packet, at);
    r := packet[at := 0][at + 1 := 0];
    var sum := Checksum.Checksum(r[csumStart..], initial);
    SealCompletes(packet, r, csumStart, csumOffset);
    r := Put16(r, at, Complement(sum));
  }

  lemma SealCompletes(packet: seq<byte>, r: seq<byte>, csumStart: nat, csumOffset: nat)
    requires csumStart + csumOffset + 2 <= |packet| <= 0xffff
    requires r == packet[csumStart + csumOffset := 0][csumStart + csumOffset + 1 := 0]
    ensures var at := csumStart + csumOffset;
      Completed(Put16(r, at, Complement(Ones(U16(packet, at) + Sum(r[csumStart..])))), packet, csumStart, csumOffset)
  {
    hide Ones, Sum, Partial, Verifies;
    var at := csumStart + csumOffset;
    var out := Put16(r, at, Complement(Ones(U16(packet, at) + Sum(r[csumStart..]))));
    forall protocol: uint8, isV6 | csumOffset % 2 == 0 && Partial(packet, csumStart, csumOffset, protocol, isV6)
      ensures Verifies(out, csumStart, protocol, isV6)
    {
      PartialStart(packet, csumStart, csumOffset, protocol, isV6);
      PartialSum(packet, r, csumStart, csumOffset, protocol, isV6);
      SealVerifies(r, csumStart, csumOffset, protocol, isV6);
    }
  }

  lemma PartialStart(packet: seq<byte>, csumStart: nat, csumOffset: nat, protocol: uint8, isV6: bool)
    requires csumStart + csumOffset + 2 <= |packet| <= 0xffff && Partial(packet, csumStart, csumOffset, protocol, isV6)
    ensures MinIpHeader(isV6) <= csumStart
  {
  }

  /** The checksum field holds the folded sum of the pseudo header. */
  ghost predicate Partial(packet: seq<byte>, csumStart: nat, csumOffset: nat, protocol: uint8, isV6: bool)
    requires csumStart + csumOffset + 2 <= |packet| <= 0xffff
  {
    && MinIpHeader(isV6) <= csumStart
    && U16(packet, csumStart + csumOffset)
         == Ones(Sum(Src(packet, isV6)) + Sum(Dst(packet, isV6)) + protocol + (|packet| - csumStart))
  }

  lemma PartialSum(packet: seq<byte>, r: seq<byte>, csumStart: nat, csumOffset: nat, protocol: uint8, isV6: bool)
    requires csumStart + csumOffset + 2 <= |packet| <= 0xffff && Partial(packet, csumStart, csumOffset, protocol, isV6)
    requires r == packet[csumStart + csumOffset := 0][csumStart + csumOffset + 1 := 0]
    ensures Ones(U16(packet, csumStart + csumOffset) + Sum(r[csumStart..]))
      == Ones(TransportSum(r, csumStart, protocol, isV6))
  {
    assert Src(r, isV6) == Src(packet, isV6) && Dst(r, isV6) == Dst(packet, isV6);
    OnesAdd(Sum(Src(packet, isV6)) + Sum(Dst(packet, isV6)) + protocol + (|packet| - csumStart), Sum(r[csumStart..]));
  }

  /** Reads a packet into `limit` buffers of `room` bytes each. */
  method HandleVirtioRead(packet: seq<byte>, hdr: VirtioNetHdr, limit: nat, room: nat) returns (r: ReadResult)
    requires packet != [] && |packet| <= 0xffff && limit > 0
    requires hdr.gsoType == GsoNone && hdr.needsCsum ==> hdr.csumStart + hdr.csumOffset + 2 <= |packet|
    requires hdr.gsoType != GsoNone ==> Plausible(packet, hdr) && room >= |packet|
    ensures hdr.gsoType == GsoNone ==>
      if |packet| > room then r == Failed(ReadOverflow)
      else if !hdr.needsCsum then r == Read([packet])
      else r.Read? && |r.packets| == 1 && Completed(r.packets[0], packet, hdr.csumStart, hdr.csumOffset)
    ensures hdr.gsoType != GsoNone ==>
      match Check(packet, hdr)
      case Refused(fault) => r == Failed(fault)
      case Passed(h) =>
        if FitsInto(packet, h, limit)
        then r.Read? && h.Describes(|packet|, Version(packet) == 6)
          && IsSplit(r.packets, packet, h, Version(packet) == 6)
        else r == Failed(TooManySegments)
  {
    if hdr.gsoType == GsoNone {
      var whole := packet;
      if hdr.needsCsum {
        whole := GsoNoneChecksum(packet, hdr.csumStart, hdr.csumOffset);
      }
      return if |packet| > room then Failed(ReadOverflow) else Read([whole]);
    }
    CheckExact(packet, hdr);
    match Check(packet, hdr) {
      case Refused(fault) =>
        return Failed(fault);
      case Passed(h) =>
        var packets, n, ok := GsoSplit(packet, h, limit, Version(packet) == 6);
        return if ok then Read(packets) else Failed(TooManySegments);
    }
  }
}
