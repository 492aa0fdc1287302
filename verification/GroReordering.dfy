/** When coalescing writes the packets of a UDP flow in another order than they came. */
module GroReordering {
  import opened Bitwise
  import opened Checksum
  import opened Options
  import opened PacketFields
  import opened GroGroups
  import opened GroState
  import opened GroWorld
  import opened GroOrder
  import opened Gro

  /** The last item of the flow of packet n. */
  ghost function LastItem(w: World, pkt: seq<byte>, canUdpGro: bool): (item: Option<Item>)
    requires Tries(pkt, canUdpGro)
  {
    var items := Items(w.udpTable, UdpKey(pkt, PacketIsGroCandidate(pkt, canUdpGro).isV6));
    if items == [] then None else Some(items[|items| - 1])
  }

  /** When packet n is tried, it overtakes an earlier packet of its flow if and only if
      the last item of the flow takes it in, and a packet of the flow that was not tried
      came after that item's first. */
  lemma OvertakesWhen(w: World, w': World, orig: seq<seq<byte>>, n: nat, canUdpGro: bool, merged: bool)
    requires n < |orig| && |w.home| == n && TriedAs(w, w', n, orig[n], canUdpGro, merged)
    ensures (exists a: nat :: a < n && SameFlow(orig, a, n) && Overtakes(w', orig, a, n, canUdpGro)) <==>
      && merged && LastItem(w, orig[n], canUdpGro).Some?
      && exists a: nat ::
           && LastItem(w, orig[n], canUdpGro).value.bufsIndex < a < n
           && SameFlow(orig, a, n) && !Tries(orig[a], canUdpGro)
  {
    var last := LastItem(w, orig[n], canUdpGro);
    hide UdpOffer, UdpFlow, Tries, NewlyTracked, LastItem;
    if merged {
      if a: nat :| last.value.bufsIndex < a < n && SameFlow(orig, a, n) && !Tries(orig[a], canUdpGro) {
        assert Overtakes(w', orig, a, n, canUdpGro);
      }
    }
  }

  /** The guard of that, at a packet's turn. */
  ghost predicate Passes(w: World, orig: seq<seq<byte>>, n: nat, canUdpGro: bool, offset: nat)
    requires n < |orig|
  {
    && Tries(orig[n], canUdpGro) && UdpMerges(w.bufs, w.udpTable, n, canUdpGro, offset)
    && LastItem(w, orig[n], canUdpGro).Some?
    && exists a: nat ::
         && LastItem(w, orig[n], canUdpGro).value.bufsIndex < a < n
         && SameFlow(orig, a, n) && !Tries(orig[a], canUdpGro)
  }

  ghost predicate InOrder(w: World, orig: seq<seq<byte>>, key: FlowKey) {
    forall a, b :: 0 <= a < b < |orig| && UdpFlow(orig[a]) == UdpFlow(orig[b]) == Some(key) ==> WrittenBefore(w, a, b)
  }

  /** At no turn of the flow the guard holds. */
  ghost predicate NonePasses(turns: seq<World>, orig: seq<seq<byte>>, key: FlowKey, canUdpGro: bool, offset: nat)
    requires |turns| == |orig| + 1
  {
    forall n :: 0 <= n < |orig| && UdpFlow(orig[n]) == Some(key) ==> !Passes(turns[n], orig, n, canUdpGro, offset)
  }

  /** What was placed at a turn stays where it is. */
  lemma {:induction false} HomeStays(turns: seq<World>, orig: seq<seq<byte>>, n: nat, m: nat, canUdpGro: bool,
      offset: nat)
    requires Turns(turns, orig, canUdpGro, offset) && n < m < |turns|
    ensures |turns[n].home| == n && |turns[m].home| == m && turns[n].home <= turns[m].home
    decreases m
  {
    hide TriedAs, UdpMerges, Tries;
    assert Turn(turns[m - 1], turns[m], orig, m - 1, canUdpGro, offset);
    if n < m - 1 {
      HomeStays(turns, orig, n, m - 1, canUdpGro, offset);
    }
  }

  /** Packet n overtakes an earlier one of its flow in the end exactly when the guard held at its turn. */
  lemma OvertakesInTheEnd(turns: seq<World>, orig: seq<seq<byte>>, n: nat, canUdpGro: bool, offset: nat)
    requires Turns(turns, orig, canUdpGro, offset) && |turns| == |orig| + 1 && n < |orig|
    requires UdpFlow(orig[n]).Some? && Homed(turns[|orig|], orig, |orig|, canUdpGro)
    ensures Passes(turns[n], orig, n, canUdpGro, offset) <==>
      exists a: nat :: a < n && SameFlow(orig, a, n) && Overtakes(turns[|orig|], orig, a, n, canUdpGro)
  {
    hide TriedAs, UdpMerges, Tries, LastItem, UdpFlow;
    var w := turns[|orig|];
    assert Turn(turns[n], turns[n + 1], orig, n, canUdpGro, offset);
    if n + 1 < |orig| {
      HomeStays(turns, orig, n + 1, |orig|, canUdpGro, offset);
    }
    assert w.home[n] == turns[n + 1].home[n];
    forall a: nat | a < n
      ensures Overtakes(w, orig, a, n, canUdpGro) <==> Overtakes(turns[n + 1], orig, a, n, canUdpGro)
    {
    }
    if Tries(orig[n], canUdpGro) {
      OvertakesWhen(turns[n], turns[n + 1], orig, n, canUdpGro,
        UdpMerges(turns[n].bufs, turns[n].udpTable, n, canUdpGro, offset));
    }
  }

  /** A UDP flow is written in the order in which it came if and only if at no turn the last item
      of the flow takes a packet in although an untried one came after that item's first. */
  lemma InOrderExactly(turns: seq<World>, orig: seq<seq<byte>>, canUdpGro: bool, offset: nat, key: FlowKey)
    requires Turns(turns, orig, canUdpGro, offset) && |turns| == |orig| + 1
    requires turns[|orig|].Ok(orig, |orig|, offset) && Homed(turns[|orig|], orig, |orig|, canUdpGro)
    ensures InOrder(turns[|orig|], orig, key) <==> NonePasses(turns, orig, key, canUdpGro, offset)
  {
    hide Turns, Passes, Overtakes, WrittenBefore, UdpFlow, World.Ok, Homed;
    var w := turns[|orig|];
    if !NonePasses(turns, orig, key, canUdpGro, offset) {
      var n :| 0 <= n < |orig| && UdpFlow(orig[n]) == Some(key) && Passes(turns[n], orig, n, canUdpGro, offset);
      OvertakesInTheEnd(turns, orig, n, canUdpGro, offset);
      var a: nat :| a < n && SameFlow(orig, a, n) && Overtakes(w, orig, a, n, canUdpGro);
      FlowOrder(w, orig, |orig|, offset, canUdpGro, a, n);
    } else {
      forall a, b | 0 <= a < b < |orig| && UdpFlow(orig[a]) == UdpFlow(orig[b]) == Some(key)
        ensures WrittenBefore(w, a, b)
      {
        OvertakesInTheEnd(turns, orig, b, canUdpGro, offset);
        FlowOrder(w, orig, |orig|, offset, canUdpGro, a, b);
      }
    }
  }

  /** Any batch: each of its UDP flows keeps its order exactly when at no turn of it the guard holds. */
  method HandleInOrder(batch: Batch) returns (ok: bool, ghost turns: seq<World>)
    requires batch.Ok(0) && batch.toWrite == []
    modifies batch
    ensures ok ==> |turns| == |batch.orig| + 1 && turns[|batch.orig|] == batch.world
    ensures ok ==> Turns(turns, batch.orig, batch.canUdpGro, batch.offset)
    ensures ok ==> forall key ::
      InOrder(batch.world, batch.orig, key) <==> NonePasses(turns, batch.orig, key, batch.canUdpGro, batch.offset)
  {
    hide InOrder, NonePasses, Turns, World.Ok, Homed;
    ok, turns := batch.HandleGro();
    if ok {
      forall key
        ensures InOrder(batch.world, batch.orig, key) <==>
          NonePasses(turns, batch.orig, key, batch.canUdpGro, batch.offset)
      {
        InOrderExactly(turns, batch.orig, batch.canUdpGro, batch.offset, key);
      }
    }
  }

  /** The item under which a tried packet is tracked as the first of a batch. */
  ghost function FirstItem(pkt: seq<byte>): Item
    requires Tries(pkt, true)
  {
    var isV6 := PacketIsGroCandidate(pkt, true).isV6;
    NewItem(false, UdpKey(pkt, isV6), 0, UdpOffer(pkt, isV6).value, false)
  }

  ghost function OfferOf(pkt: seq<byte>): Offer
    requires Tries(pkt, true)
  {
    UdpOffer(pkt, PacketIsGroCandidate(pkt, true).isV6).value
  }

  /** The first and third packet of a flow may merge, and the second is not tried. */
  ghost predicate Straddled(a: seq<byte>, b: seq<byte>, c: seq<byte>, capacity: nat, offset: nat) {
    && Tries(a, true) && !Tries(b, true) && Tries(c, true) && UdpFlow(a) == UdpFlow(b) == UdpFlow(c)
    && Allows(Append, c, OfferOf(c), FirstItem(a), a) && Mergeable(capacity, offset, a, FirstItem(a), c)
  }

  lemma FirstTracked(w: World, w': World, a: seq<byte>, merged: bool)
    requires w.udpTable == map[] && TriedAs(w, w', 0, a, true, merged)
    ensures w' == Inserted(w, FirstItem(a), 0) && w'.udpTable == map[FirstItem(a).key := [FirstItem(a)]]
  {
    assert Items(w.udpTable, FirstItem(a).key) + [FirstItem(a)] == [FirstItem(a)];
  }

  lemma ThirdMerges(bufs: seq<Buf>, table: Table, a: seq<byte>, b: seq<byte>, c: seq<byte>, offset: nat)
    requires |bufs| == 3 && bufs[0].packet == a && bufs[2].packet == c && Straddled(a, b, c, bufs[0].capacity, offset)
    requires table == map[FirstItem(a).key := [FirstItem(a)]]
    ensures UdpMerges(bufs, table, 2, true, offset)
    ensures Items(table, UdpKey(c, PacketIsGroCandidate(c, true).isV6)) == [FirstItem(a)]
  {
    TriesFlow(a, true);
    TriesFlow(c, true);
    var isV6 := PacketIsGroCandidate(c, true).isV6;
    assert UdpKey(c, isV6) == FirstItem(a).key;
    assert Merges(bufs, 2, FirstItem(a), OfferOf(c), offset);
  }

  lemma FirstUntouched(w: World, orig: seq<seq<byte>>, n: nat, offset: nat)
    requires w.Ok(orig, n, offset) && 0 in w.itemAt && w.itemAt[0].numMerged == 0
    ensures w.bufs[0].packet == orig[0]
  {
    assert GroupOk(w.bufs[0].packet, w.itemAt[0], orig, w.members[0]);
  }

  /** Three such packets are written first, third, second. */
  method Overtaken(a: seq<byte>, b: seq<byte>, c: seq<byte>, capacity: nat, offset: nat) returns (batch: Batch)
    requires Straddled(a, b, c, capacity, offset) && capacity <= 0xffff && VIRTIO_NET_HDR_LEN <= offset
    requires offset + |a| <= capacity && offset + |b| <= capacity && offset + |c| <= capacity
    ensures fresh(batch) && batch.orig == [a, b, c] && Listed(batch.toWrite, batch.world.members, 3)
    ensures batch.Ok(3) && batch.world.home == [0, 1, 0] && WrittenBefore(batch.world, 2, 1)
  {
    hide GroupOk, GroupsOk, Partition, Untouched, TableOk, Covered, Roomy, UdpOrdered, Plain, DroppedBad, Extends;
    hide UdpMerges, Tries, UdpFlow, TriedAs, FirstItem, Allows, Mergeable;
    batch := new Batch([a, b, c], [capacity, capacity, capacity], offset, true);
    ghost var w0 := batch.world;
    TriedHasFlow(a, b, c);
    assert Listed([], w0.members, 0) && Homed(w0, batch.orig, 0, true);
    hide Listed, Homed;
    batch.Evaluate(0);
    FirstTracked(w0, batch.world, a, UdpMerges(w0.bufs, map[], 0, true, offset));
    batch.Evaluate(1);
    ghost var w2 := batch.world;
    FirstNew(a);
    FirstUntouched(w2, batch.orig, 2, offset);
    NotReached(w2, batch.orig, 2, offset);
    ThirdMerges(w2.bufs, w2.udpTable, a, b, c, offset);
    batch.Evaluate(2);
    ThirdHome(w2, batch.world, a, c);
  }

  lemma TriedHasFlow(a: seq<byte>, b: seq<byte>, c: seq<byte>)
    requires Tries(a, true) && UdpFlow(a) == UdpFlow(b) == UdpFlow(c)
    ensures UdpFlow(b).Some?
  {
    TriesFlow(a, true);
  }

  lemma FirstNew(a: seq<byte>)
    requires Tries(a, true)
    ensures FirstItem(a).numMerged == 0 && FirstItem(a).bufsIndex == 0 && !FirstItem(a).tcp
  {
  }

  lemma ThirdHome(w: World, w': World, a: seq<byte>, c: seq<byte>)
    requires TriedAs(w, w', 2, c, true, true) && Tries(a, true)
    requires Items(w.udpTable, UdpKey(c, PacketIsGroCandidate(c, true).isV6)) == [FirstItem(a)]
    ensures w'.home == w.home + [0]
  {
  }

  /** An IPv4 datagram of zeros with this much payload, byte by byte. */
  function ByteAt(payload: nat, i: nat): byte
    requires payload <= 100
  {
    if i == 0 then 0x45
    else if i == 3 then 28 + payload
    else if i == 9 then IPPROTO_UDP
    else if i == 25 then 8 + payload
    else 0
  }

  function Zeros(payload: nat): (pkt: seq<byte>)
    requires payload <= 100
    ensures |pkt| == 28 + payload && forall i :: 0 <= i < |pkt| ==> pkt[i] == ByteAt(payload, i)
  {
    seq(28 + payload, i requires 0 <= i => ByteAt(payload, i))
  }

  /** The same with a valid checksum. */
  ghost function Datagram(payload: nat): (pkt: seq<byte>)
    requires payload <= 100
    ensures |pkt| == 28 + payload && forall i :: 0 <= i < 26 ==> pkt[i] == ByteAt(payload, i)
    ensures Verifies(pkt, 20, IPPROTO_UDP, false)
  {
    var pkt := Zeros(payload);
    SealVerifies(pkt, 20, 6, IPPROTO_UDP, false);
    Put16(pkt, 26, Complement(Ones(TransportSum(pkt, 20, IPPROTO_UDP, false))))
  }

  lemma FourZeros(pkt: seq<byte>, at: nat)
    requires at + 4 <= |pkt| && pkt[at] == pkt[at + 1] == pkt[at + 2] == pkt[at + 3] == 0
    ensures pkt[at..at + 4] == [0, 0, 0, 0] && U16(pkt, at) == U16(pkt, at + 2) == 0
  {
  }

  lemma DatagramBytes(payload: nat)
    requires payload <= 1
    ensures var pkt := Datagram(payload);
      && pkt[0] == 0x45 && pkt[1] == pkt[6] == pkt[7] == pkt[8] == 0 && pkt[9] == IPPROTO_UDP
      && U16(pkt, 2) == 28 + payload
      && KeyOf(pkt, 20, false, false) == FlowKey([0, 0, 0, 0], [0, 0, 0, 0], 0, 0, 0, false)
  {
    hide Verifies, Datagram, Zeros;
    var pkt := Datagram(payload);
    FourZeros(pkt, 12);
    FourZeros(pkt, 16);
    FourZeros(pkt, 20);
  }

  /** An empty datagram between two others of its flow. */
  lemma EmptyBetween()
    ensures Straddled(Datagram(1), Datagram(0), Datagram(1), 100, 10)
  {
    hide Verifies, KeyOf, U16;
    DatagramBytes(1);
    DatagramBytes(0);
  }
}
