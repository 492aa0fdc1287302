/** Coalescing a batch of packets in place before they are written to the device. */
module Gro {
  import opened Bitwise
  import opened Checksum
  import opened Options
  import opened PacketFields
  import opened GroGroups
  import opened GroState
  import opened GroWorld
  import opened GroOrder
  import opened GroRoundTrip
  import opened VirtioRead

  datatype GroResult = Noop | TableInserted | Coalesced

  datatype CoalesceResult = InsufficientCap | PshEnding | ItemInvalidCsum | PktInvalidCsum | Success

  // ----- merging two packets

  /** The item's packet passes its check, which is made once, before its first merge. */
  method ItemVerifies(packet: seq<byte>, item: Item) returns (ok: bool)
    requires item.Sized() && item.iphLen <= |packet| <= 0xffff
    requires item.cSumKnownInvalid ==> !Verifies(packet, item.iphLen, item.Protocol(), item.key.isV6)
    ensures ok <==> item.numMerged > 0 || Verifies(packet, item.iphLen, item.Protocol(), item.key.isV6)
  {
    ok := true;
    if item.numMerged == 0 {
      if item.cSumKnownInvalid {
        return false;
      }
      ok := ChecksumValid(packet, item.iphLen, item.Protocol(), item.key.isV6);
    }
  }

  /** All that a merge requires of the item's packet and of packet k. */
  ghost predicate MayMerge(can: CanCoalesce, packet: seq<byte>, item: Item, orig: seq<seq<byte>>, ms: seq<nat>, k: nat,
      offer: Offer) {
    && GroupOk(packet, item, orig, ms) && Offers(orig, k, offer, item)
    && Allows(can, orig[k], offer, item, packet) && (forall p :: 0 <= p < |ms| ==> ms[p] < k)
  }

  /** The merge succeeded: the buffer holds the new group, within its capacity. */
  ghost predicate MergeDone(merged: Buf, item': Item, item: Item, orig: seq<seq<byte>>, ms: seq<nat>, capacity: nat,
      offset: nat) {
    && merged.capacity == capacity && offset + |merged.packet| <= capacity
    && item'.bufsIndex == item.bufsIndex && item'.key == item.key && item'.tcp == item.tcp
    && GroupOk(merged.packet, item', orig, ms)
  }

  /** A merge that is allowed happens exactly when the result fits the buffer that
      will hold it and both packets verify. */
  ghost predicate Mergeable(capacity: nat, offset: nat, packet: seq<byte>, item: Item, pkt: seq<byte>) {
    && |packet| + |pkt| - item.HeadersLen() <= capacity - offset - offset
    && (item.numMerged > 0 || Verifies(packet, item.iphLen, item.Protocol(), item.key.isV6))
    && Verifies(pkt, item.iphLen, item.Protocol(), item.key.isV6)
  }

  /** Appends a packet to the item's; head is the item's buffer. */
  method CoalesceAppend(head: Buf, pkt: seq<byte>, offer: Offer, item: Item, offset: nat, ghost orig: seq<seq<byte>>,
      ghost ms: seq<nat>, ghost k: nat)
    returns (result: CoalesceResult, item': Item, merged: Buf)
    requires MayMerge(Append, head.packet, item, orig, ms, k, offer) && pkt == orig[k] && head.capacity <= 0xffff
    ensures result == Success <==> Mergeable(head.capacity, offset, head.packet, item, pkt)
    ensures result == PktInvalidCsum ==> !Verifies(pkt, item.iphLen, item.Protocol(), item.key.isV6)
    ensures result == ItemInvalidCsum ==>
      item.numMerged == 0 && !Verifies(head.packet, item.iphLen, item.Protocol(), item.key.isV6)
    ensures result == Success ==> MergeDone(merged, item', item, orig, ms + [k], head.capacity, offset)
  {
    item', merged := item, head;
    var coalescedLen := |head.packet| + |pkt| - item.HeadersLen();
    if head.capacity - offset - offset < coalescedLen {
      return InsufficientCap, item', merged;
    }
    var ok := ItemVerifies(head.packet, item);
    if !ok {
      return ItemInvalidCsum, item', merged;
    }
    ok := ChecksumValid(pkt, item.iphLen, item.Protocol(), item.key.isV6);
    if !ok {
      return PktInvalidCsum, item', merged;
    }
    var flagged := head.packet;
    if offer.pshSet && item.tcp {
      item' := item'.(pshSet := true);
      flagged := WithPsh(flagged, item);
    }
    CountFits(head.packet, item, orig, ms);
    item' := item'.(numMerged := item'.numMerged + 1);
    AppendOk(head.packet, item, orig, ms, k, offer, item', flagged);
    merged := head.(packet := Appended(flagged, pkt, item.HeadersLen()));
    result := Success;
  }

  /** Puts a packet in front of the item's; own is that packet's buffer, which will hold both. */
  method CoalescePrepend(packet: seq<byte>, own: Buf, offer: Offer, item: Item, offset: nat,
      ghost orig: seq<seq<byte>>, ghost ms: seq<nat>, ghost k: nat)
    returns (result: CoalesceResult, item': Item, merged: Buf)
    requires MayMerge(Prepend, packet, item, orig, ms, k, offer) && item.tcp && own.packet == orig[k]
    requires own.capacity <= 0xffff
    ensures result == Success <==> Mergeable(own.capacity, offset, packet, item, own.packet)
    ensures result == PktInvalidCsum ==> !Verifies(own.packet, item.iphLen, item.Protocol(), item.key.isV6)
    ensures result == ItemInvalidCsum ==>
      item.numMerged == 0 && !Verifies(packet, item.iphLen, item.Protocol(), item.key.isV6)
    ensures result == Success ==> MergeDone(merged, item', item, orig, [k] + ms, own.capacity, offset)
  {
    item', merged := item, own;
    var coalescedLen := |packet| + |own.packet| - item.HeadersLen();
    if own.capacity - offset - offset < coalescedLen {
      return InsufficientCap, item', merged;
    }
    if offer.pshSet {
      return PshEnding, item', merged;
    }
    var ok := ItemVerifies(packet, item);
    if !ok {
      return ItemInvalidCsum, item', merged;
    }
    ok := ChecksumValid(own.packet, item.iphLen, item.Protocol(), item.key.isV6);
    if !ok {
      return PktInvalidCsum, item', merged;
    }
    CountFits(packet, item, orig, ms);
    item' := item'.(sentSeq := offer.seqNum);
    if offer.gsoSize > item'.gsoSize {
      item' := item'.(gsoSize := offer.gsoSize);
    }
    item' := item'.(numMerged := item'.numMerged + 1);
    PrependOk(packet, item, orig, ms, k, offer, item');
    merged := own.(packet := Prepended(packet, own.packet, item.HeadersLen()));
    result := Success;
  }

  /** Packet n found its group: `own` is what its own buffer stands for now, and
      no other buffer gained or lost its group. */
  ghost predicate Settled(members: seq<seq<nat>>, members': seq<seq<nat>>, n: nat, own: seq<nat>) {
    && n < |members| == |members'| && members'[n] == own
    && forall j :: 0 <= j < n ==> (members'[j] == [] <==> members[j] == [])
  }

  /** The buffers after a merge: appending changes the item's; prepending exchanges the two. */
  function BufsAfter(can: CanCoalesce, bufs: seq<Buf>, b: nat, n: nat, merged: Buf): seq<Buf>
    requires b < |bufs| && n < |bufs|
  {
    if can == Prepend then bufs[n := bufs[b]][b := merged] else bufs[b := merged]
  }

  function MembersAfter(can: CanCoalesce, ms: seq<nat>, n: nat): seq<nat> {
    if can == Prepend then [n] + ms else ms + [n]
  }

  lemma MergeWorld(w: World, orig: seq<seq<byte>>, n: nat, offset: nat, tcp: bool, key: FlowKey, i: nat,
      can: CanCoalesce, item': Item, merged: Buf)
    requires w.Ok(orig, n, offset) && n < |w.bufs| && key in w.Table(tcp) && i < |w.Table(tcp)[key]|
    requires w.Table(tcp)[key][i].bufsIndex < n && w.Table(tcp)[key][i].key == key && w.Table(tcp)[key][i].tcp == tcp
    requires !tcp ==> can == Append && i == |w.udpTable[key]| - 1
    requires var item := w.Table(tcp)[key][i]; var b := item.bufsIndex;
      MergeDone(merged, item', item, orig, MembersAfter(can, w.members[b], n),
        w.bufs[if can == Prepend then n else b].capacity, offset)
    ensures var b := item'.bufsIndex; var ms := MembersAfter(can, w.members[b], n);
      var w' := Merged(w, BufsAfter(can, w.bufs, b, n, merged), i, item', ms);
      w'.Ok(orig, n + 1, offset) && Settled(w.members, w'.members, n, [])
  {
    hide GroupOk, GroupsOk, Partition, TableOk, Covered, UdpOrdered;
    var b := item'.bufsIndex;
    var bufs' := BufsAfter(can, w.bufs, b, n, merged);
    NotReached(w, orig, n, offset);
    ItemFacts(w, orig, n, offset, tcp, key, i);
    StepMerge(w, bufs', orig, n, offset, i, item', MembersAfter(can, w.members[b], n));
  }

  // ----- what a packet offers

  /** The item under which packet n is tracked. */
  function NewItem(tcp: bool, key: FlowKey, n: nat, offer: Offer, invalid: bool): Item {
    Item(tcp, key, offer.seqNum, n % 0x1_0000, 0, offer.gsoSize, offer.iphLen, offer.thLen, offer.pshSet, invalid)
  }

  /** Packet n was read for coalescing, and this is what it offers. */
  ghost predicate Parsed(orig: seq<seq<byte>>, n: nat, tcp: bool, key: FlowKey, offer: Offer) {
    && n < |orig| && n < 0x1_0000
    && Belongs(orig, n, NewItem(tcp, key, n, offer, false)) && offer.gsoSize == |orig[n]| - offer.iphLen - offer.thLen
    && (tcp ==>
          && offer.seqNum == U32(orig[n], offer.iphLen + 4)
          && orig[n][offer.iphLen + TCP_FLAGS_OFFSET] == AckFlags(offer.pshSet))
  }

  /** A packet that passed the candidate test can be read as TCP or UDP, of an IP version. */
  predicate Readable(pkt: seq<byte>, tcp: bool, isV6: bool) {
    && |pkt| >= MinIpHeader(isV6) + (if tcp then 20 else UDPH_LEN)
    && pkt[0] / 16 == (if isV6 then 6 else 4) && (!isV6 ==> pkt[0] % 16 == 5)
    && pkt[ProtocolAt(isV6)] == (if tcp then IPPROTO_TCP else IPPROTO_UDP)
  }

  lemma ParsedPacket(orig: seq<seq<byte>>, n: nat, tcp: bool, isV6: bool, offer: Offer)
    requires n < |orig| && n < 0x1_0000 && Readable(orig[n], tcp, isV6)
    requires (if tcp then TcpOffer(orig[n], isV6) else UdpOffer(orig[n], isV6)) == Some(offer)
    ensures Parsed(orig, n, tcp, KeyOf(orig[n], offer.iphLen, tcp, isV6), offer)
  {
  }

  lemma NewItemOk(orig: seq<seq<byte>>, n: nat, tcp: bool, key: FlowKey, offer: Offer, invalid: bool)
    requires Parsed(orig, n, tcp, key, offer)
    requires invalid ==> !tcp && !Verifies(orig[n], offer.iphLen, IPPROTO_UDP, key.isV6)
    ensures GroupOk(orig[n], NewItem(tcp, key, n, offer, invalid), orig, [n])
  {
    var item := NewItem(tcp, key, n, offer, invalid);
    assert Belongs(orig, n, item);
    GroupOfOne(item, orig, n);
  }

  lemma TcpUnknown(packet: seq<byte>, item: Item, orig: seq<seq<byte>>, ms: seq<nat>)
    requires GroupOk(packet, item, orig, ms)
    ensures item.tcp ==> !item.cSumKnownInvalid
  {
  }

  /** What the packet offers fits an item of its flow that has the same header lengths. */
  lemma OffersToItem(packet: seq<byte>, item: Item, orig: seq<seq<byte>>, ms: seq<nat>, n: nat, offer: Offer)
    requires IsGroup(packet, item, orig, ms) && Parsed(orig, n, item.tcp, item.key, offer)
    ensures item.iphLen == offer.iphLen && item.gsoSize > 0 && item.HeadersLen() <= |packet|
    ensures item.thLen == offer.thLen ==> Offers(orig, n, offer, item)
    ensures !item.tcp ==> item.thLen == offer.thLen
  {
  }

  const VIRTIO_NET_HDR_LEN := 10

  /** The write list so far: the buffers that stand for some input, in order. */
  ghost predicate Listed(toWrite: seq<nat>, members: seq<seq<nat>>, n: nat) {
    && n <= |members| && Ascending(toWrite)
    && (forall i :: 0 <= i < |toWrite| ==> toWrite[i] < n)
    && (forall j :: 0 <= j < n ==> (j in toWrite <==> members[j] != []))
  }

  lemma ListedNext(toWrite: seq<nat>, members: seq<seq<nat>>, members': seq<seq<nat>>, n: nat, own: seq<nat>)
    requires Listed(toWrite, members, n) && Settled(members, members', n, own)
    ensures Listed(if own == [] then toWrite else toWrite + [n], members', n + 1)
  {
  }

  // ----- accounting

  /** The buffer of a tracked item after accounting. */
  ghost predicate AccountedBuf(buf: Buf, was: Buf, item: Item) {
    && buf.capacity == was.capacity
    && (if item.numMerged > 0 then
          && item.Sized() && item.HeadersLen() <= |was.packet| <= 0xffff
          && Accounted(buf.packet, was.packet, item) && buf.hdr == HdrOf(item)
        else buf.packet == was.packet && buf.hdr == NO_HDR)
  }

  /** The items named in `done` are accounted for, and nothing else has changed. */
  ghost predicate AccountedSoFar(bufs: seq<Buf>, was: seq<Buf>, itemAt: map<nat, Item>, done: set<nat>) {
    && |bufs| == |was|
    && (forall j :: 0 <= j < |bufs| && j !in done ==> bufs[j] == was[j])
    && (forall j :: j in done ==> j in itemAt && j < |bufs| && AccountedBuf(bufs[j], was[j], itemAt[j]))
  }

  // ----- what is written

  /** The buffer holds the accounted merge of the members, as the item says. */
  ghost predicate IsMerge(buf: Buf, item: Item, was: seq<byte>, orig: seq<seq<byte>>, ms: seq<nat>) {
    GroupOk(was, item, orig, ms) && Accounted(buf.packet, was, item) && buf.hdr == HdrOf(item)
  }

  /** Listed buffer j holds its input unchanged, or the merge of several inputs of one
      flow; unless its item was dropped, with the virtio header that goes with that. */
  ghost predicate Delivered(buf: Buf, orig: seq<seq<byte>>, ms: seq<nat>, j: nat, dropped: bool) {
    if |ms| == 1 then j < |orig| && ms == [j] && buf.packet == orig[j] && (!dropped ==> buf.hdr == NO_HDR)
    else exists item, was :: IsMerge(buf, item, was, orig, ms)
  }

  lemma AllDelivered(w: World, bufs: seq<Buf>, orig: seq<seq<byte>>, n: nat, offset: nat, j: nat)
    requires w.Ok(orig, n, offset) && AccountedSoFar(bufs, w.bufs, w.itemAt, w.itemAt.Keys) && j < n
    requires w.members[j] != []
    ensures Delivered(bufs[j], orig, w.members[j], j, j in w.dropped)
  {
    hide Partition, TableOk, Covered, UdpOrdered, Roomy;
    if j in w.itemAt {
      var item := w.itemAt[j];
      assert GroupOk(w.bufs[j].packet, item, orig, w.members[j]) && AccountedBuf(bufs[j], w.bufs[j], item);
      if item.numMerged > 0 {
        assert IsMerge(bufs[j], item, w.bufs[j].packet, orig, w.members[j]);
      }
    }
  }

  /** Reading back a packet that was written alone gives it as it was. */
  method ReadAlone(buf: Buf, limit: nat, ghost orig: seq<seq<byte>>, ghost j: nat) returns (packets: seq<seq<byte>>)
    requires Delivered(buf, orig, [j], j, false) && buf.packet != [] && |buf.packet| <= 0xffff && limit > 0
    ensures packets == [orig[j]]
  {
    var r := HandleVirtioRead(buf.packet, buf.hdr, limit, |buf.packet|);
    packets := r.packets;
  }

  /** Reading a written merge back gives all its members, in order: what coalescing
      did is undone. */
  method ReadBack(buf: Buf, limit: nat, ghost item: Item, ghost was: seq<byte>, ghost orig: seq<seq<byte>>,
      ghost ms: seq<nat>) returns (packets: seq<seq<byte>>)
    requires IsMerge(buf, item, was, orig, ms) && |ms| <= limit
    ensures |packets| == |ms|
    ensures forall i :: 0 <= i < |ms| ==> Belongs(orig, ms[i], item) && Restored(packets[i], orig, ms[i], item)
    ensures item.tcp ==>
      ((forall i :: 0 <= i < |ms| ==> SameFlags(packets[i], orig, ms[i], item)) <==> PshStays(item, orig, ms))
  {
    HeaderReadBack(buf.packet, was, item, orig, ms);
    SegmentCount(was, item, orig, ms, buf.packet, limit);
    var r := HandleVirtioRead(buf.packet, buf.hdr, limit, |buf.packet|);
    packets := r.packets;
    RoundTrip(was, item, orig, ms, buf.packet, packets);
    if item.tcp {
      FlagsRoundTrip(was, item, orig, ms, buf.packet, packets);
    }
  }

  // ----- when a packet finds its group

  /** Packet n may merge with the item's packet, and the merge will happen. */
  ghost predicate Merges(bufs: seq<Buf>, n: nat, item: Item, offer: Offer, offset: nat) {
    && n < |bufs| && item.bufsIndex < |bufs|
    && var packet, pkt := bufs[item.bufsIndex].packet, bufs[n].packet;
      || (Allows(Append, pkt, offer, item, packet)
        && Mergeable(bufs[item.bufsIndex].capacity, offset, packet, item, pkt))
      || (item.tcp && Allows(Prepend, pkt, offer, item, packet)
        && Mergeable(bufs[n].capacity, offset, packet, item, pkt))
  }

  /** Some item of the packet's flow takes it in. */
  ghost predicate TcpFinds(bufs: seq<Buf>, table: Table, n: nat, isV6: bool, offset: nat)
    requires n < |bufs| && Readable(bufs[n].packet, true, isV6)
  {
    var pkt := bufs[n].packet;
    var offered := TcpOffer(pkt, isV6);
    && offered.Some?
    && var items := Items(table, KeyOf(pkt, offered.value.iphLen, true, isV6));
    exists i :: 0 <= i < |items| && Merges(bufs, n, items[i], offered.value, offset)
  }

  /** The last of the items that take the packet in is at this buffer. */
  ghost predicate LastTaker(bufs: seq<Buf>, table: Table, n: nat, isV6: bool, offset: nat, b: nat)
    requires n < |bufs| && Readable(bufs[n].packet, true, isV6)
  {
    var pkt := bufs[n].packet;
    var offered := TcpOffer(pkt, isV6);
    && offered.Some?
    && var items := Items(table, KeyOf(pkt, offered.value.iphLen, true, isV6));
    exists i: nat :: TakesLast(bufs, items, n, offered.value, offset, i) && items[i].bufsIndex == b
  }

  ghost predicate TakesLast(bufs: seq<Buf>, items: seq<Item>, n: nat, offer: Offer, offset: nat, i: nat) {
    && i < |items| && Merges(bufs, n, items[i], offer, offset)
    && forall j :: i < j < |items| ==> !Merges(bufs, n, items[j], offer, offset)
  }

  /** A TCP packet that coalescing passes over: it is not tried, or its checksum is bad. */
  ghost predicate NotTracked(pkt: seq<byte>, isV6: bool)
    requires Readable(pkt, true, isV6)
  {
    TcpOffer(pkt, isV6).None? || !Verifies(pkt, MinIpHeader(isV6), IPPROTO_TCP, isV6)
  }

  lemma IsLastTaker(bufs: seq<Buf>, table: Table, n: nat, isV6: bool, offset: nat, offer: Offer, i: nat)
    requires n < |bufs| && Readable(bufs[n].packet, true, isV6) && TcpOffer(bufs[n].packet, isV6) == Some(offer)
    requires |bufs[n].packet| >= offer.iphLen + 20 && offer.iphLen == MinIpHeader(isV6)
    requires var items := Items(table, KeyOf(bufs[n].packet, offer.iphLen, true, isV6));
      TakesLast(bufs, items, n, offer, offset, i)
    ensures var items := Items(table, KeyOf(bufs[n].packet, offer.iphLen, true, isV6));
      LastTaker(bufs, table, n, isV6, offset, items[i].bufsIndex)
  {
    hide TakesLast, TcpOffer;
  }

  /** The last item of the packet's flow takes it in. */
  ghost predicate UdpFinds(bufs: seq<Buf>, table: Table, n: nat, isV6: bool, offset: nat)
    requires n < |bufs| && Readable(bufs[n].packet, false, isV6)
  {
    var pkt := bufs[n].packet;
    var offered := UdpOffer(pkt, isV6);
    && offered.Some?
    && var items := Items(table, KeyOf(pkt, offered.value.iphLen, false, isV6));
    items != [] && Merges(bufs, n, items[|items| - 1], offered.value, offset)
  }

  /** Coalescing is tried with UDP packet n, and the last item of its flow takes it in. */
  ghost predicate UdpMerges(bufs: seq<Buf>, table: Table, n: nat, canUdpGro: bool, offset: nat) {
    && n < |bufs| && Tries(bufs[n].packet, canUdpGro)
    && UdpFinds(bufs, table, n, PacketIsGroCandidate(bufs[n].packet, canUdpGro).isV6, offset)
  }

  function UdpKey(pkt: seq<byte>, isV6: bool): FlowKey
    requires |pkt| >= MinIpHeader(isV6) + UDPH_LEN
  {
    KeyOf(pkt, MinIpHeader(isV6), false, isV6)
  }

  /** UDP packet n was placed: with the last item of its flow, or as a new one after it. */
  ghost predicate UdpPlaced(w: World, w': World, n: nat, pkt: seq<byte>, isV6: bool, merged: bool)
    requires Readable(pkt, false, isV6) && n < |w.members|
  {
    var offered, key := UdpOffer(pkt, isV6), UdpKey(pkt, isV6);
    var items := Items(w.udpTable, key);
    && offered.Some? && (merged ==> items != [])
    && (var h := if merged then items[|items| - 1].bufsIndex else n; w'.home == w.home + [h] && UdpAt(w', h, key))
    && (!merged ==> NewlyTracked(w, w', n, key, offered.value, items != []))
  }

  ghost predicate NewlyTracked(w: World, w': World, n: nat, key: FlowKey, offer: Offer, flowKnown: bool)
    requires n < |w.members|
  {
    exists invalid :: (invalid ==> flowKnown) && w' == Inserted(w, NewItem(false, key, n, offer, invalid), n)
  }

  /** The UDP packet at this place, as it was tried. */
  ghost predicate TriedAs(w: World, w': World, n: nat, pkt: seq<byte>, canUdpGro: bool, merged: bool) {
    && Tries(pkt, canUdpGro) && n < |w.members|
    && UdpPlaced(w, w', n, pkt, PacketIsGroCandidate(pkt, canUdpGro).isV6, merged)
  }

  /** One turn, as far as the order of UDP flows goes: packet n was placed, and nothing placed before moved. */
  ghost predicate Turn(w: World, w': World, orig: seq<seq<byte>>, n: nat, canUdpGro: bool, offset: nat) {
    && n < |orig| && |w.home| == n && |w'.home| == n + 1 && w.home <= w'.home
    && (Tries(orig[n], canUdpGro) ==>
          TriedAs(w, w', n, orig[n], canUdpGro, UdpMerges(w.bufs, w.udpTable, n, canUdpGro, offset)))
  }

  /** The state before each turn, and after the last. */
  ghost predicate Turns(ws: seq<World>, orig: seq<seq<byte>>, canUdpGro: bool, offset: nat) {
    ws != [] && forall n :: 0 <= n < |ws| - 1 ==> Turn(ws[n], ws[n + 1], orig, n, canUdpGro, offset)
  }

  lemma TurnsNext(ws: seq<World>, w: World, orig: seq<seq<byte>>, canUdpGro: bool, offset: nat)
    requires Turns(ws, orig, canUdpGro, offset)
    requires Turn(ws[|ws| - 1], w, orig, |ws| - 1, canUdpGro, offset)
    ensures Turns(ws + [w], orig, canUdpGro, offset)
  {
    hide Turn;
  }

  lemma FirstTurn(w: World, orig: seq<seq<byte>>, canUdpGro: bool, offset: nat)
    ensures Turns([w], orig, canUdpGro, offset)
  {
  }

  lemma IsTurn(w: World, w': World, orig: seq<seq<byte>>, n: nat, canUdpGro: bool, offset: nat)
    requires Homed(w, orig, n, canUdpGro) && Homed(w', orig, n + 1, canUdpGro) && Extends(w, w')
    requires Tries(orig[n], canUdpGro) ==>
      TriedAs(w, w', n, orig[n], canUdpGro, UdpMerges(w.bufs, w.udpTable, n, canUdpGro, offset))
    ensures Turn(w, w', orig, n, canUdpGro, offset)
  {
    hide UdpFlow, Tries, TriedAs, UdpMerges;
  }

  class Batch {
    const offset: nat
    const canUdpGro: bool
    var bufs: seq<Buf>
    var tcpTable: Table
    var udpTable: Table
    var toWrite: seq<nat>
    ghost const orig: seq<seq<byte>>
    ghost var world: World

    /** The recorded state shows the fields as they are. */
    ghost predicate Tied()
      reads this
    {
      bufs == world.bufs && tcpTable == world.tcpTable && udpTable == world.udpTable && |bufs| <= 0x1_0000
    }

    ghost predicate Ok(n: nat)
      reads this
    {
      Tied() && world.Ok(orig, n, offset)
    }

    // ----- steps

    /** Tracks packet n as an item of its own. */
    method Insert(n: nat, item: Item)
      requires Tied() && n < |world.members| && Inserted(world, item, n).Ok(orig, n + 1, offset)
      modifies this`tcpTable, this`udpTable, this`world
      ensures Ok(n + 1) && world == Inserted(old(world), item, n)
    {
      hide GroupsOk, Partition, Untouched, TableOk, Covered, Roomy, UdpOrdered, Plain, DroppedBad;
      world := Inserted(world, item, n);
      if item.tcp {
        tcpTable := tcpTable[item.key := Items(tcpTable, item.key) + [item]];
      } else {
        udpTable := udpTable[item.key := Items(udpTable, item.key) + [item]];
      }
    }

    /** Replaces item i of its flow after packet n was merged into its buffer. */
    method UpdateAt(n: nat, i: nat, item: Item, bufs': seq<Buf>, ghost ms: seq<nat>)
      requires Tied() && item.key in world.Table(item.tcp) && i < |world.Table(item.tcp)[item.key]|
      requires item.bufsIndex < |world.members|
      requires |bufs'| == |bufs| && Merged(world, bufs', i, item, ms).Ok(orig, n, offset)
      modifies this`bufs, this`tcpTable, this`udpTable, this`world
      ensures Ok(n) && world == Merged(old(world), bufs', i, item, ms)
    {
      hide GroupsOk, Partition, Untouched, TableOk, Covered, Roomy, UdpOrdered, Plain, DroppedBad;
      world := Merged(world, bufs', i, item, ms);
      bufs := bufs';
      if item.tcp {
        tcpTable := tcpTable[item.key := tcpTable[item.key][i := item]];
      } else {
        udpTable := udpTable[item.key := udpTable[item.key][i := item]];
      }
    }

    method DeleteAt(n: nat, key: FlowKey, i: nat)
      requires Tied() && key in tcpTable && i < |tcpTable[key]| && Dropped(world, key, i).Ok(orig, n, offset)
      modifies this`tcpTable, this`world
      ensures Ok(n) && world == Dropped(old(world), key, i)
    {
      hide GroupsOk, Partition, Untouched, TableOk, Covered, Roomy, UdpOrdered, Plain, DroppedBad;
      world := Dropped(world, key, i);
      tcpTable := tcpTable[key := tcpTable[key][..i] + tcpTable[key][i + 1..]];
    }

    /** Tries to merge packet n with item i of its flow, as allowed. */
    method Coalesce(n: nat, offer: Offer, tcp: bool, key: FlowKey, i: nat, item: Item,
        can: CanCoalesce) returns (result: CoalesceResult)
      requires Ok(n) && n < |bufs| && key in world.Table(tcp) && i < |world.Table(tcp)[key]|
      requires item == world.Table(tcp)[key][i]
      requires item.key == key && item.tcp == tcp && item.bufsIndex < n && (can == Append || (can == Prepend && tcp))
      requires !tcp ==> i == |udpTable[key]| - 1
      requires MayMerge(can, bufs[item.bufsIndex].packet, item, orig, world.members[item.bufsIndex], n, offer)
      modifies this`bufs, this`tcpTable, this`udpTable, this`world
      ensures result == Success ==> Ok(n + 1) && Settled(old(world).members, world.members, n, [])
      ensures result == Success ==> Extends(old(world), world) && world.home == old(world).home + [item.bufsIndex]
      ensures result == Success && !tcp ==> UdpAt(world, item.bufsIndex, key)
      ensures result != Success ==> world == old(world) && Ok(n)
      ensures result == ItemInvalidCsum ==>
        item.numMerged == 0 && (tcp ==> !Verifies(bufs[item.bufsIndex].packet, item.iphLen, IPPROTO_TCP, item.key.isV6))
      ensures result == Success <==> Merges(old(bufs), n, item, offer, offset)
      ensures result == PktInvalidCsum ==> !Verifies(old(bufs)[n].packet, item.iphLen, item.Protocol(), item.key.isV6)
    {
      hide GroupOk, GroupsOk, Partition, TableOk, Covered, UdpOrdered, Offers, Plain, DroppedBad, Untouched;
      hide Extends, UdpAt, Settled, Verifies;
      var b := item.bufsIndex;
      ghost var ms := world.members[b];
      NotReached(world, orig, n, offset);
      TcpUnknown(bufs[b].packet, item, orig, ms);
      var item', merged;
      if can == Prepend {
        result, item', merged := CoalescePrepend(bufs[b].packet, bufs[n], offer, item, offset, orig, ms, n);
      } else {
        result, item', merged := CoalesceAppend(bufs[b], bufs[n].packet, offer, item, offset, orig, ms, n);
      }
      if result == Success {
        MergeWorld(world, orig, n, offset, tcp, key, i, can, item', merged);
        ItemFacts(world, orig, n, offset, tcp, key, i);
        MergedExtends(world, BufsAfter(can, bufs, b, n, merged), i, item', MembersAfter(can, ms, n));
        UpdateAt(n + 1, i, item', BufsAfter(can, bufs, b, n, merged), MembersAfter(can, ms, n));
      }
    }

    /** Stores packet n as a new item of its flow. */
    method Store(n: nat, tcp: bool, key: FlowKey, offer: Offer, invalid: bool)
      requires Ok(n) && n < |bufs| && Parsed(orig, n, tcp, key, offer)
      requires invalid ==> !tcp && !Verifies(orig[n], offer.iphLen, IPPROTO_UDP, key.isV6)
      modifies this`tcpTable, this`udpTable, this`world
      ensures Ok(n + 1) && Settled(old(world).members, world.members, n, [n])
      ensures world == Inserted(old(world), NewItem(tcp, key, n, offer, invalid), n)
      ensures Extends(old(world), world) && world.home == old(world).home + [n]
      ensures !tcp ==> UdpAt(world, n, key)
    {
      hide GroupOk, GroupsOk, Partition, TableOk, Covered, UdpOrdered;
      var item := NewItem(tcp, key, n, offer, invalid);
      NewItemOk(orig, n, tcp, key, offer, invalid);
      StepInsert(world, item, orig, n, offset);
      NotReached(world, orig, n, offset);
      InsertedExtends(world, item, n);
      Insert(n, item);
    }

    /** Whether packet n may merge with item i of its flow. */
    method CanMerge(n: nat, tcp: bool, key: FlowKey, offer: Offer, i: nat, item: Item) returns (can: CanCoalesce)
      requires Ok(n) && n < |bufs| && key in world.Table(tcp) && i < |world.Table(tcp)[key]|
      requires item == world.Table(tcp)[key][i]
      requires Parsed(orig, n, tcp, key, offer)
      ensures item.key == key && item.tcp == tcp && item.bufsIndex < n && item.iphLen == offer.iphLen
      ensures Allows(can, bufs[n].packet, offer, item, bufs[item.bufsIndex].packet)
      ensures can != Unavailable ==>
        MayMerge(can, bufs[item.bufsIndex].packet, item, orig, world.members[item.bufsIndex], n, offer)
      ensures !tcp ==> can != Prepend
    {
      hide GroupsOk, Partition, TableOk, Covered, UdpOrdered;
      ItemFacts(world, orig, n, offset, tcp, key, i);
      NotReached(world, orig, n, offset);
      OffersToItem(bufs[item.bufsIndex].packet, item, orig, world.members[item.bufsIndex], n, offer);
      if tcp {
        can := TcpPacketsCanCoalesce(bufs[n].packet, offer, item, bufs[item.bufsIndex].packet);
      } else {
        can := UdpPacketsCanCoalesce(bufs[n].packet, offer, item, bufs[item.bufsIndex].packet);
      }
    }

    lemma ItemsOfFlow(key: FlowKey)
      requires TableOk(tcpTable, world.itemAt, true) && key in tcpTable
      ensures forall j :: 0 <= j < |tcpTable[key]| ==> tcpTable[key][j].key == key && tcpTable[key][j].tcp
    {
    }

    /** A packet that does not verify is taken in by no item of its flow. */
    lemma NoneTakes(bufs: seq<Buf>, n: nat, items: seq<Item>, key: FlowKey, offer: Offer, i: nat)
      requires i < |items| && n < |bufs| && forall j :: 0 <= j < |items| ==> items[j].key == key && items[j].tcp
      requires items[i].iphLen == offer.iphLen && !Verifies(bufs[n].packet, items[i].iphLen, IPPROTO_TCP, key.isV6)
      ensures forall j :: 0 <= j < |items| ==> !Merges(bufs, n, items[j], offer, offset)
    {
    }

    lemma FindsWhenSome(bufs: seq<Buf>, table: Table, n: nat, isV6: bool)
      requires n < |bufs| && Readable(bufs[n].packet, true, isV6)
      ensures var offered := TcpOffer(bufs[n].packet, isV6);
        if offered.None? then !TcpFinds(bufs, table, n, isV6, offset)
        else
          && (|bufs[n].packet| >= offered.value.iphLen + 20 && offered.value.iphLen == MinIpHeader(isV6))
          && var items := Items(table, KeyOf(bufs[n].packet, offered.value.iphLen, true, isV6));
          TcpFinds(bufs, table, n, isV6, offset) <==>
            exists i :: 0 <= i < |items| && Merges(bufs, n, items[i], offered.value, offset)
    {
    }

    lemma NotAllowed(bufs: seq<Buf>, n: nat, item: Item, offer: Offer, can: CanCoalesce)
      requires n < |bufs| && item.bufsIndex < |bufs|
      requires Allows(can, bufs[n].packet, offer, item, bufs[item.bufsIndex].packet)
      ensures can == Unavailable ==> !Merges(bufs, n, item, offer, offset)
    {
    }

    /** Tries to merge TCP packet n with item i of its flow; drops the item if its checksum is bad. */
    method TcpTry(n: nat, key: FlowKey, offer: Offer, i: nat, item: Item) returns (outcome: CoalesceResult)
      requires Ok(n) && n < |bufs| && key in tcpTable && i < |tcpTable[key]| && item == tcpTable[key][i]
      requires Parsed(orig, n, true, key, offer)
      modifies this`bufs, this`tcpTable, this`udpTable, this`world
      ensures Extends(old(world), world) && (outcome == Success <==> Merges(old(bufs), n, item, offer, offset))
      ensures outcome == Success ==> Ok(n + 1) && Settled(old(world).members, world.members, n, [])
      ensures outcome == Success ==> world.home == old(world).home + [item.bufsIndex]
      ensures outcome != Success ==>
        && Ok(n) && bufs == old(bufs) && world.members == old(world).members && world.home == old(world).home
        && key in tcpTable && i <= |tcpTable[key]| && tcpTable[key][..i] == old(tcpTable)[key][..i]
      ensures outcome == PktInvalidCsum ==>
        item.iphLen == offer.iphLen && !Verifies(bufs[n].packet, item.iphLen, IPPROTO_TCP, key.isV6)
    {
      hide GroupOk, GroupsOk, Partition, Covered, UdpOrdered, Parsed, MayMerge, Offers, Merges, Allows, Settled,
        Untouched, Roomy, Verifies;
      var can := CanMerge(n, true, key, offer, i, item);
      NotAllowed(bufs, n, item, offer, can);
      outcome := InsufficientCap;
      if can != Unavailable {
        outcome := Coalesce(n, offer, true, key, i, item, can);
        if outcome == ItemInvalidCsum {
          StepDrop(world, orig, n, offset, key, i);
          DroppedExtends(world, key, i);
          DeleteAt(n, key, i);
        }
      }
    }

    /** Evaluates TCP packet n against the items of its flow, last first. */
    method TcpGro(n: nat, isV6: bool) returns (result: GroResult)
      requires Ok(n) && n < |bufs| && Readable(bufs[n].packet, true, isV6)
      modifies this`bufs, this`tcpTable, this`udpTable, this`world
      ensures result == Coalesced <==> TcpFinds(old(bufs), old(tcpTable), n, isV6, offset)
      ensures result == Coalesced ==> exists b ::
        LastTaker(old(bufs), old(tcpTable), n, isV6, offset, b) && world.home == old(world).home + [b]
      ensures result == Noop ==> NotTracked(old(bufs)[n].packet, isV6)
      ensures Extends(old(world), world)
      ensures result == Noop ==> Ok(n) && world.members == old(world).members && world.home == old(world).home
      ensures result == TableInserted ==> Ok(n + 1) && Settled(old(world).members, world.members, n, [n])
      ensures result == Coalesced ==> Ok(n + 1) && Settled(old(world).members, world.members, n, [])
    {
      hide GroupOk, GroupsOk, Partition, TableOk, Covered, UdpOrdered, Parsed, MayMerge, Offers, Merges, TcpFinds,
        TcpOffer, Allows, Settled, Untouched, Roomy, Inserted, UdpAt;
      ghost var start := bufs;
      NotReached(world, orig, n, offset);
      var offered := TcpOffer(bufs[n].packet, isV6);
      FindsWhenSome(start, tcpTable, n, isV6);
      if offered.None? {
        return Noop;
      }
      var offer := offered.value;
      var key := KeyOf(bufs[n].packet, offer.iphLen, true, isV6);
      ParsedPacket(orig, n, true, isV6, offer);
      if key !in tcpTable {
        Store(n, true, key, offer, false);
        return TableInserted;
      }
      var items := tcpTable[key];
      ItemsOfFlow(key);
      var i := |items|;
      while i > 0
        invariant Ok(n) && world.members == old(world).members && world.home == old(world).home && n < |bufs|
        invariant Extends(old(world), world)
        invariant key in tcpTable && 0 <= i <= |items| && i <= |tcpTable[key]| && tcpTable[key][..i] == items[..i]
        invariant bufs == start && forall j :: i <= j < |items| ==> !Merges(start, n, items[j], offer, offset)
      {
        i := i - 1;
        assert tcpTable[key][i] == items[i];
        var outcome := TcpTry(n, key, offer, i, items[i]);
        if outcome == Success {
          IsLastTaker(start, old(tcpTable), n, isV6, offset, offer, i);
          return Coalesced;
        } else if outcome == PktInvalidCsum {
          NoneTakes(start, n, items, key, offer, i);
          return Noop;
        }
      }
      Store(n, true, key, offer, false);
      return TableInserted;
    }

    /** Evaluates UDP packet n against the last item of its flow only, so as to keep the flow's order. */
    method UdpGro(n: nat, isV6: bool) returns (result: GroResult)
      requires Ok(n) && n < |bufs| && Readable(bufs[n].packet, false, isV6)
      modifies this`bufs, this`tcpTable, this`udpTable, this`world
      ensures result == Coalesced <==> UdpFinds(old(bufs), old(udpTable), n, isV6, offset)
      ensures Extends(old(world), world) && (result == Noop <==> UdpOffer(old(bufs)[n].packet, isV6).None?)
      ensures result == Noop ==> Ok(n) && world == old(world)
      ensures result != Noop ==> UdpPlaced(old(world), world, n, old(bufs)[n].packet, isV6, result == Coalesced)
      ensures result == TableInserted ==> Ok(n + 1) && Settled(old(world).members, world.members, n, [n])
      ensures result == Coalesced ==> Ok(n + 1) && Settled(old(world).members, world.members, n, [])
    {
      hide GroupOk, GroupsOk, Partition, TableOk, Covered, Parsed, MayMerge, Offers, Inserted;
      NotReached(world, orig, n, offset);
      var offered := UdpOffer(bufs[n].packet, isV6);
      if offered.None? {
        return Noop;
      }
      var offer := offered.value;
      var key := KeyOf(bufs[n].packet, offer.iphLen, false, isV6);
      ParsedPacket(orig, n, false, isV6, offer);
      if key !in udpTable {
        Store(n, false, key, offer, false);
        return TableInserted;
      }
      var last := |udpTable[key]| - 1;
      var item := udpTable[key][last];
      var can := CanMerge(n, false, key, offer, last, item);
      var invalid := false;
      if can == Append {
        var outcome := Coalesce(n, offer, false, key, last, item, can);
        if outcome == Success {
          return Coalesced;
        }
        invalid := outcome == PktInvalidCsum;
      }
      Store(n, false, key, offer, invalid);
      return TableInserted;
    }

    /** Leaves packet n as it is, with an empty virtio header. */
    method Skip(n: nat)
      requires Ok(n) && n < |bufs|
      modifies this`bufs, this`world
      ensures Ok(n + 1) && Settled(old(world).members, world.members, n, [n])
      ensures world == Alone(old(world), bufs, n) && Extends(old(world), world) && SamePackets(old(bufs), bufs)
    {
      hide GroupOk, GroupsOk, Partition, TableOk, Covered, UdpOrdered;
      NotReached(world, orig, n, offset);
      bufs := bufs[n := bufs[n].(hdr := NO_HDR)];
      StepAlone(world, bufs, orig, n, offset);
      world := Alone(world, bufs, n);
    }

    /** Evaluates TCP packet n; what is left alone gets an empty virtio header. */
    method TcpStep(n: nat, isV6: bool) returns (merged: bool)
      requires Ok(n) && n < |bufs| && Readable(bufs[n].packet, true, isV6)
      modifies this`bufs, this`tcpTable, this`udpTable, this`world
      ensures Ok(n + 1) && Settled(old(world).members, world.members, n, if merged then [] else [n])
      ensures Extends(old(world), world)
    {
      hide GroupOk, GroupsOk, Partition, Untouched, TableOk, Covered, Roomy, UdpOrdered, Plain, DroppedBad, Readable,
        TcpFinds;
      var result := TcpGro(n, isV6);
      if result == Noop {
        ghost var between := world;
        Skip(n);
        ExtendsThrough(old(world), between, world);
      }
      merged := result == Coalesced;
    }

    /** The same for UDP packet n. */
    method UdpStep(n: nat, isV6: bool) returns (merged: bool)
      requires Ok(n) && n < |bufs| && Readable(bufs[n].packet, false, isV6)
      modifies this`bufs, this`tcpTable, this`udpTable, this`world
      ensures Ok(n + 1) && Settled(old(world).members, world.members, n, if merged then [] else [n])
      ensures Extends(old(world), world)
      ensures merged <==> UdpFinds(old(bufs), old(udpTable), n, isV6, offset)
      ensures if UdpOffer(old(bufs)[n].packet, isV6).None? then world == Alone(old(world), bufs, n)
              else UdpPlaced(old(world), world, n, old(bufs)[n].packet, isV6, merged)
      ensures UdpOffer(old(bufs)[n].packet, isV6).None? ==> SamePackets(old(bufs), bufs)
    {
      hide GroupOk, GroupsOk, Partition, Untouched, TableOk, Covered, Roomy, UdpOrdered, Plain, DroppedBad, UdpFinds;
      hide UdpPlaced, UdpOffer;
      var result := UdpGro(n, isV6);
      if result == Noop {
        Skip(n);
      }
      merged := result == Coalesced;
    }

    /** Evaluates packet n, and lists it for writing unless it was merged. */
    method Evaluate(n: nat)
      requires Ok(n) && n < |bufs| && Listed(toWrite, world.members, n) && Homed(world, orig, n, canUdpGro)
      modifies this`bufs, this`tcpTable, this`udpTable, this`world, this`toWrite
      ensures Ok(n + 1) && Listed(toWrite, world.members, n + 1) && |bufs| == old(|bufs|)
      ensures Homed(world, orig, n + 1, canUdpGro) && Extends(old(world), world)
      ensures UdpFlow(orig[n]).Some? && !Tries(orig[n], canUdpGro) ==>
        world == Alone(old(world), bufs, n) && SamePackets(old(bufs), bufs)
      ensures Tries(orig[n], canUdpGro) ==>
        TriedAs(old(world), world, n, orig[n], canUdpGro, UdpMerges(old(bufs), old(udpTable), n, canUdpGro, offset))
    {
      hide GroupOk, GroupsOk, Partition, Untouched, TableOk, Covered, Roomy, UdpOrdered, Plain, DroppedBad, Listed,
        Homed;
      hide Extends, UdpFinds, UdpOffer, UdpFlow, Settled, UdpAt, NewlyTracked;
      ghost var was := world;
      NotReached(world, orig, n, offset);
      TriesFlow(orig[n], canUdpGro);
      var merged := false;
      var candidate := PacketIsGroCandidate(bufs[n].packet, canUdpGro);
      match candidate {
        case TcpCandidate(isV6) => merged := TcpStep(n, isV6);
        case UdpCandidate(isV6) => merged := UdpStep(n, isV6);
        case NotCandidate => Skip(n);
      }
      HomeBound(world, orig, n + 1, offset);
      HomedNext(was, world, orig, n, canUdpGro);
      ListedNext(toWrite, was.members, world.members, n, if merged then [] else [n]);
      if !merged {
        toWrite := toWrite + [n];
      }
    }

    method AccountItem(item: Item, ghost done: set<nat>)
      requires Tracked(item, world.itemAt) && item.bufsIndex < |bufs| && item.bufsIndex !in done
      requires AccountedSoFar(bufs, world.bufs, world.itemAt, done)
      requires item.Sized() && item.HeadersLen() <= |world.bufs[item.bufsIndex].packet| <= 0xffff
      modifies this`bufs
      ensures AccountedSoFar(bufs, world.bufs, world.itemAt, done + {item.bufsIndex}) && |bufs| == old(|bufs|)
    {
      var b := item.bufsIndex;
      if item.numMerged > 0 {
        var packet := Account(bufs[b].packet, item);
        bufs := bufs[b := bufs[b].(packet := packet, hdr := HdrOf(item))];
      } else {
        bufs := bufs[b := bufs[b].(hdr := NO_HDR)];
      }
    }

    method AccountFlow(tcp: bool, key: FlowKey, ghost n: nat, ghost done: set<nat>) returns (ghost done': set<nat>)
      requires world.Ok(orig, n, offset) && tcpTable == world.tcpTable && udpTable == world.udpTable
      requires key in world.Table(tcp)
      requires AccountedSoFar(bufs, world.bufs, world.itemAt, done) && |bufs| == |world.bufs|
      requires forall b :: b in done ==> b in world.itemAt && (world.itemAt[b].tcp != tcp || world.itemAt[b].key != key)
      modifies this`bufs
      ensures AccountedSoFar(bufs, world.bufs, world.itemAt, done') && |bufs| == old(|bufs|)
      ensures forall b :: b in done' <==>
        b in done || (b in world.itemAt && world.itemAt[b].tcp == tcp && world.itemAt[b].key == key)
    {
      hide GroupOk, GroupsOk, Partition, TableOk, Covered, UdpOrdered, AccountedSoFar, Untouched, Roomy;
      var items := if tcp then tcpTable[key] else udpTable[key];
      done' := done;
      for i := 0 to |items|
        invariant AccountedSoFar(bufs, world.bufs, world.itemAt, done') && |bufs| == |world.bufs|
        invariant forall b :: b in done' <==> b in done || exists j :: 0 <= j < i && items[j].bufsIndex == b
      {
        FlowItem(n, tcp, key, i);
        AccountItem(items[i], done');
        done' := done' + {items[i].bufsIndex};
      }
      FlowVisited(n, tcp, key, done, done', items);
    }

    lemma FlowItem(n: nat, tcp: bool, key: FlowKey, i: nat)
      requires world.Ok(orig, n, offset) && key in world.Table(tcp) && i < |world.Table(tcp)[key]|
      ensures var item := world.Table(tcp)[key][i];
        && Tracked(item, world.itemAt) && item.bufsIndex < |world.bufs| && item.key == key && item.tcp == tcp
        && item.Sized() && item.HeadersLen() <= |world.bufs[item.bufsIndex].packet| <= 0xffff
        && forall j :: 0 <= j < i ==> world.Table(tcp)[key][j].bufsIndex != item.bufsIndex
    {
      hide GroupsOk, Partition, Covered, UdpOrdered;
      ItemFacts(world, orig, n, offset, tcp, key, i);
    }

    lemma FlowVisited(n: nat, tcp: bool, key: FlowKey, done: set<nat>, done': set<nat>, items: seq<Item>)
      requires world.Ok(orig, n, offset) && key in world.Table(tcp) && items == world.Table(tcp)[key]
      requires forall b :: b in done' <==> b in done || exists j :: 0 <= j < |items| && items[j].bufsIndex == b
      ensures forall b :: b in done' <==>
        b in done || (b in world.itemAt && world.itemAt[b].tcp == tcp && world.itemAt[b].key == key)
    {
      ItemsBefore(world, orig, n, offset);
      forall b: nat
        ensures (exists j :: 0 <= j < |items| && items[j].bufsIndex == b) <==>
          b in world.itemAt && world.itemAt[b].tcp == tcp && world.itemAt[b].key == key
      {
        hide GroupsOk, Partition, Untouched, TableOk, Covered, Roomy, UdpOrdered, Plain, DroppedBad;
        FlowHolds(world.Table(tcp), world.itemAt, world.tcpTable, world.udpTable, tcp, key, b);
      }
    }

    method AccountTable(tcp: bool, ghost n: nat, ghost done: set<nat>) returns (ghost done': set<nat>)
      requires world.Ok(orig, n, offset) && tcpTable == world.tcpTable && udpTable == world.udpTable
      requires AccountedSoFar(bufs, world.bufs, world.itemAt, done) && |bufs| == |world.bufs|
      requires forall b :: b in done ==> b in world.itemAt && world.itemAt[b].tcp != tcp
      modifies this`bufs
      ensures AccountedSoFar(bufs, world.bufs, world.itemAt, done') && |bufs| == old(|bufs|)
      ensures forall b :: b in done' <==> b in done || (b in world.itemAt && world.itemAt[b].tcp == tcp)
    {
      hide GroupOk, GroupsOk, Partition, TableOk, UdpOrdered, AccountedSoFar, Untouched, Roomy;
      var left := (if tcp then tcpTable else udpTable).Keys;
      done' := done;
      while left != {}
        invariant left <= world.Table(tcp).Keys
        invariant AccountedSoFar(bufs, world.bufs, world.itemAt, done') && |bufs| == |world.bufs|
        invariant forall b :: b in done' <==>
          b in done || (b in world.itemAt && world.itemAt[b].tcp == tcp && world.itemAt[b].key !in left)
        decreases left
      {
        var key :| key in left;
        done' := AccountFlow(tcp, key, n, done');
        left := left - {key};
      }
    }

    /** Coalesces the batch: afterwards the write list names exactly the buffers
        that stand for some input, each input in exactly one of them. `turns` are the
        states at each packet's turn. */
    method HandleGro() returns (ok: bool, ghost turns: seq<World>)
      requires Ok(0) && toWrite == []
      modifies this
      ensures ok <==> (orig == [] || offset >= VIRTIO_NET_HDR_LEN) && forall j :: 0 <= j < |orig| ==> orig[j] != []
      ensures ok ==> Listed(toWrite, world.members, |orig|) && Partition(world.members, world.home, |orig|)
      ensures ok ==> |bufs| == |orig| && forall j :: j in toWrite ==>
        j < |orig| && Delivered(bufs[j], orig, world.members[j], j, j in world.dropped)
      ensures ok ==> DroppedBad(orig, world.dropped)
      ensures ok ==> forall a, b :: a < b && SameFlow(orig, a, b) ==>
        if Overtakes(world, orig, a, b, canUdpGro) then WrittenBefore(world, b, a) else WrittenBefore(world, a, b)
      ensures ok ==> world.Ok(orig, |orig|, offset) && Homed(world, orig, |orig|, canUdpGro)
      ensures ok ==> |turns| == |orig| + 1 && turns[|orig|] == world && Turns(turns, orig, canUdpGro, offset)
    {
      hide GroupOk, GroupsOk, TableOk, Covered, UdpOrdered, Turns, Turn, Tries, TriedAs, UdpMerges;
      turns := [world];
      FirstTurn(world, orig, canUdpGro, offset);
      for n := 0 to |bufs|
        invariant Ok(n) && |bufs| == |orig| && Listed(toWrite, world.members, n) && Homed(world, orig, n, canUdpGro)
        invariant (n == 0 || offset >= VIRTIO_NET_HDR_LEN) && forall j :: 0 <= j < n ==> orig[j] != []
        invariant |turns| == n + 1 && turns[n] == world && Turns(turns, orig, canUdpGro, offset)
      {
        NotReached(world, orig, n, offset);
        if offset < VIRTIO_NET_HDR_LEN || |bufs[n].packet| == 0 {
          return false, turns;
        }
        ghost var was := world;
        Evaluate(n);
        IsTurn(was, world, orig, n, canUdpGro, offset);
        TurnsNext(turns, world, orig, canUdpGro, offset);
        turns := turns + [world];
      }
      ghost var n := |bufs|;
      assert AccountedSoFar(bufs, world.bufs, world.itemAt, {});
      ghost var done := AccountTable(true, n, {});
      done := AccountTable(false, n, done);
      assert done == world.itemAt.Keys;
      forall j | j in toWrite
        ensures j < |orig| && Delivered(bufs[j], orig, world.members[j], j, j in world.dropped)
      {
        AllDelivered(world, bufs, orig, n, offset, j);
      }
      forall a, b | a < b && SameFlow(orig, a, b)
        ensures if Overtakes(world, orig, a, b, canUdpGro) then WrittenBefore(world, b, a)
          else WrittenBefore(world, a, b)
      {
        FlowOrder(world, orig, n, offset, canUdpGro, a, b);
      }
      ok := true;
    }

    constructor (packets: seq<seq<byte>>, capacities: seq<nat>, offset: nat, canUdpGro: bool)
      requires |packets| == |capacities| <= 0x1_0000
      requires forall j :: 0 <= j < |packets| ==> offset + |packets[j]| <= capacities[j] <= 0xffff
      ensures Ok(0) && toWrite == [] && orig == packets && this.offset == offset && this.canUdpGro == canUdpGro
      ensures tcpTable == map[] && udpTable == map[] && |bufs| == |packets| && world.home == []
      ensures forall j :: 0 <= j < |bufs| ==> bufs[j].capacity == capacities[j]
    {
      this.offset, this.canUdpGro := offset, canUdpGro;
      var bufs := seq(|packets|, j requires 0 <= j < |packets| => Buf(packets[j], capacities[j], NO_HDR));
      this.bufs, tcpTable, udpTable, toWrite := bufs, map[], map[], [];
      orig := packets;
      world := World(bufs, map[], map[], map[], seq(|packets|, _ => []), [], {});
    }
  }
}
