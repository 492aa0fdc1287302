/** The order in which the packets of a UDP flow are written. */
module GroOrder {
  import opened Bitwise
  import opened Options
  import opened PacketFields
  import opened GroGroups
  import opened GroState
  import opened GroWorld

  /** The flow of a UDP packet, whether or not coalescing looks at it. */
  function UdpFlow(pkt: seq<byte>): Option<FlowKey> {
    if |pkt| < 28 then None
    else if pkt[0] / 16 == 4 && 20 <= pkt[0] % 16 * 4 <= |pkt| - UDPH_LEN && pkt[9] == IPPROTO_UDP then
      Some(KeyOf(pkt, pkt[0] % 16 * 4, false, false))
    else if pkt[0] / 16 == 6 && |pkt| >= 48 && pkt[6] == IPPROTO_UDP then Some(KeyOf(pkt, 40, false, true))
    else None
  }

  /** A UDP packet over IP of a version, with room for both headers. */
  predicate IsUdp(pkt: seq<byte>, isV6: bool) {
    if isV6 then |pkt| >= 48 && pkt[0] / 16 == 6 && pkt[6] == IPPROTO_UDP
    else |pkt| >= 28 && pkt[0] / 16 == 4 && 20 <= IphLen(pkt, false) <= |pkt| - UDPH_LEN && pkt[9] == IPPROTO_UDP
  }

  /** Two packets are of one UDP flow exactly when they are UDP packets of one IP version
      with equal addresses and ports. */
  lemma UdpFlowExact(a: seq<byte>, b: seq<byte>)
    ensures UdpFlow(a).Some? && UdpFlow(a) == UdpFlow(b) <==> exists isV6 ::
      IsUdp(a, isV6) && IsUdp(b, isV6) && SameEnds(a, IphLen(a, isV6), b, IphLen(b, isV6), false, isV6)
  {
    hide KeyOf, SameEnds;
    forall isV6 | IsUdp(a, isV6) && IsUdp(b, isV6)
      ensures KeyOf(a, IphLen(a, isV6), false, isV6) == KeyOf(b, IphLen(b, isV6), false, isV6) <==>
        SameEnds(a, IphLen(a, isV6), b, IphLen(b, isV6), false, isV6)
    {
      FlowExact(a, IphLen(a, isV6), b, IphLen(b, isV6), false, isV6);
    }
    if |a| >= 28 && |b| >= 28 {
      var v := a[0] / 16 == 6;
      FlowVersion(a, b, v);
      FlowVersion(b, a, b[0] / 16 == 6);
    }
  }

  lemma FlowVersion(a: seq<byte>, b: seq<byte>, isV6: bool)
    requires |a| >= 28 && isV6 == (a[0] / 16 == 6)
    ensures UdpFlow(a).Some? <==> IsUdp(a, isV6)
    ensures IsUdp(a, isV6) ==>
      UdpFlow(a) == Some(KeyOf(a, IphLen(a, isV6), false, isV6)) && UdpFlow(a).value.isV6 == isV6
    ensures !IsUdp(a, !isV6)
  {
  }

  /** Coalescing is tried with this UDP packet. */
  predicate Tries(pkt: seq<byte>, canUdpGro: bool) {
    var c := PacketIsGroCandidate(pkt, canUdpGro);
    c.UdpCandidate? && UdpOffer(pkt, c.isV6).Some?
  }

  lemma TriesFlow(pkt: seq<byte>, canUdpGro: bool)
    ensures var c := PacketIsGroCandidate(pkt, canUdpGro);
      && (c.TcpCandidate? ==> UdpFlow(pkt).None?)
      && (c.UdpCandidate? ==> UdpFlow(pkt) == Some(KeyOf(pkt, MinIpHeader(c.isV6), false, c.isV6)))
      && (Tries(pkt, canUdpGro) ==> UdpOffer(pkt, c.isV6).value.iphLen == MinIpHeader(c.isV6))
  {
  }

  /** A UDP item of the flow is tracked at the buffer. */
  ghost predicate UdpAt(w: World, b: nat, key: FlowKey) {
    b in w.itemAt && !w.itemAt[b].tcp && w.itemAt[b].key == key
  }

  /** No UDP item is lost, and no input's group moves to another buffer. */
  ghost predicate Extends(w: World, w': World) {
    && w.home <= w'.home
    && forall b, key :: UdpAt(w, b, key) ==> UdpAt(w', b, key)
  }

  /** Every packet tried so far is in a group of its flow; every other UDP packet is alone. */
  ghost predicate Homed(w: World, orig: seq<seq<byte>>, n: nat, canUdpGro: bool) {
    && |w.home| == n <= |orig|
    && (forall k :: 0 <= k < n ==> w.home[k] <= k)
    && (forall k :: 0 <= k < n && UdpFlow(orig[k]).Some? ==>
          if Tries(orig[k], canUdpGro) then UdpAt(w, w.home[k], UdpFlow(orig[k]).value) else w.home[k] == k)
  }

  lemma HomedNext(w: World, w': World, orig: seq<seq<byte>>, n: nat, canUdpGro: bool)
    requires Homed(w, orig, n, canUdpGro) && Extends(w, w') && n < |orig| && |w'.home| == n + 1 && w'.home[n] <= n
    requires UdpFlow(orig[n]).Some? ==>
      if Tries(orig[n], canUdpGro) then UdpAt(w', w'.home[n], UdpFlow(orig[n]).value) else w'.home[n] == n
    ensures Homed(w', orig, n + 1, canUdpGro)
  {
    forall k | 0 <= k < n ensures w'.home[k] == w.home[k] {
    }
  }

  lemma HomeBound(w: World, orig: seq<seq<byte>>, n: nat, offset: nat)
    requires w.Ok(orig, n, offset)
    ensures |w.home| == n && forall k :: 0 <= k < n ==> w.home[k] < n
  {
  }

  lemma ExtendsThrough(w: World, between: World, w': World)
    requires Extends(w, between) && Extends(between, w')
    ensures Extends(w, w')
  {
  }

  lemma InsertedExtends(w: World, item: Item, n: nat)
    requires n < |w.members| && n !in w.itemAt
    ensures Extends(w, Inserted(w, item, n)) && (!item.tcp ==> UdpAt(Inserted(w, item, n), n, item.key))
  {
  }

  lemma MergedExtends(w: World, bufs': seq<Buf>, i: nat, item: Item, ms: seq<nat>)
    requires item.key in w.Table(item.tcp) && i < |w.Table(item.tcp)[item.key]| && item.bufsIndex < |w.members|
    requires item.bufsIndex in w.itemAt ==>
      w.itemAt[item.bufsIndex].tcp == item.tcp && w.itemAt[item.bufsIndex].key == item.key
    ensures var w' := Merged(w, bufs', i, item, ms);
      Extends(w, w') && (!item.tcp ==> UdpAt(w', item.bufsIndex, item.key))
  {
  }

  lemma DroppedExtends(w: World, key: FlowKey, i: nat)
    requires key in w.tcpTable && i < |w.tcpTable[key]| && Tracked(w.tcpTable[key][i], w.itemAt)
    requires w.tcpTable[key][i].tcp
    ensures Extends(w, Dropped(w, key, i))
  {
  }

  // ----- the order

  ghost predicate SameFlow(orig: seq<seq<byte>>, a: nat, b: nat) {
    a < |orig| && b < |orig| && UdpFlow(orig[a]).Some? && UdpFlow(orig[a]) == UdpFlow(orig[b])
  }

  /** Input a is written before input b: in an earlier buffer, or earlier in the same. */
  ghost predicate WrittenBefore(w: World, a: nat, b: nat) {
    && a < |w.home| && b < |w.home| && w.home[a] < |w.members|
    && (w.home[a] < w.home[b] || (w.home[a] == w.home[b] && Precedes(w.members[w.home[a]], a, b)))
  }

  ghost predicate Precedes(ms: seq<nat>, a: nat, b: nat) {
    exists p, q :: 0 <= p < q < |ms| && ms[p] == a && ms[q] == b
  }

  /** The group of a later packet was begun before a packet with which coalescing is not tried. */
  ghost predicate Overtakes(w: World, orig: seq<seq<byte>>, a: nat, b: nat, canUdpGro: bool) {
    a < |orig| && b < |w.home| && !Tries(orig[a], canUdpGro) && w.home[b] < a
  }

  /** Of two packets of a UDP flow the later is written first if and only if it overtakes the earlier. */
  lemma FlowOrder(w: World, orig: seq<seq<byte>>, n: nat, offset: nat, canUdpGro: bool, a: nat, b: nat)
    requires w.Ok(orig, n, offset) && Homed(w, orig, n, canUdpGro) && a < b < n && SameFlow(orig, a, b)
    ensures if Overtakes(w, orig, a, b, canUdpGro) then WrittenBefore(w, b, a) else WrittenBefore(w, a, b)
    ensures !(WrittenBefore(w, a, b) && WrittenBefore(w, b, a))
  {
    hide GroupsOk, Untouched, TableOk, Covered, Roomy, Plain, DroppedBad, UdpOrdered, Tries, UdpFlow;
    if w.home[a] == w.home[b] && (Tries(orig[a], canUdpGro) || Tries(orig[b], canUdpGro)) {
      TogetherAscend(w, orig, n, offset, w.home[a], UdpFlow(orig[a]).value, a, b);
    } else if Tries(orig[a], canUdpGro) && Tries(orig[b], canUdpGro) {
      ApartAscend(w, orig, n, offset, UdpFlow(orig[a]).value, a, b);
    }
  }

  lemma GroupAscends(w: World, orig: seq<seq<byte>>, n: nat, offset: nat, h: nat, key: FlowKey)
    requires w.Ok(orig, n, offset) && UdpAt(w, h, key)
    ensures h < |w.members| && Ascending(w.members[h])
  {
    hide Partition, Untouched, TableOk, Covered, Roomy, Plain, DroppedBad, UdpOrdered;
    assert GroupOk(w.bufs[h].packet, w.itemAt[h], orig, w.members[h]);
  }

  lemma TogetherAscend(w: World, orig: seq<seq<byte>>, n: nat, offset: nat, h: nat, key: FlowKey, a: nat, b: nat)
    requires w.Ok(orig, n, offset) && a < b < n && w.home[a] == w.home[b] == h && UdpAt(w, h, key)
    ensures Precedes(w.members[h], a, b) && !Precedes(w.members[h], b, a)
  {
    GroupAscends(w, orig, n, offset, h, key);
    hide GroupsOk, Untouched, TableOk, Covered, Roomy, Plain, DroppedBad, UdpOrdered;
    AscendingPrecedes(w.members[h], a, b);
  }

  lemma AscendingPrecedes(ms: seq<nat>, a: nat, b: nat)
    requires Ascending(ms) && a in ms && b in ms && a < b
    ensures Precedes(ms, a, b) && !Precedes(ms, b, a)
  {
    var p :| 0 <= p < |ms| && ms[p] == a;
    var q :| 0 <= q < |ms| && ms[q] == b;
    assert p < q;
  }

  lemma ApartAscend(w: World, orig: seq<seq<byte>>, n: nat, offset: nat, key: FlowKey, a: nat, b: nat)
    requires w.Ok(orig, n, offset) && a < b < n && UdpAt(w, w.home[a], key) && UdpAt(w, w.home[b], key)
    requires w.home[a] != w.home[b]
    ensures w.home[a] < w.home[b]
  {
    hide GroupsOk, Untouched, TableOk, Roomy, Plain, DroppedBad;
    var x, y := w.itemAt[w.home[a]], w.itemAt[w.home[b]];
    assert InTable(x, w.udpTable) && InTable(y, w.udpTable);
    var items := w.udpTable[key];
    var i :| 0 <= i < |items| && items[i] == x;
    var j :| 0 <= j < |items| && items[j] == y;
    ItemsAt(w, orig, n, offset);
    var p :| 0 <= p < |w.members[w.home[a]]| && w.members[w.home[a]][p] == a;
    var q :| 0 <= q < |w.members[w.home[b]]| && w.members[w.home[b]][q] == b;
  }

  lemma ItemsAt(w: World, orig: seq<seq<byte>>, n: nat, offset: nat)
    requires w.Ok(orig, n, offset)
    ensures forall b :: b in w.itemAt ==> w.itemAt[b].bufsIndex == b
  {
  }

  /** A flow with whose every packet coalescing is tried is written in order. */
  lemma TriedFlowInOrder(w: World, orig: seq<seq<byte>>, n: nat, offset: nat, canUdpGro: bool, key: FlowKey)
    requires w.Ok(orig, n, offset) && Homed(w, orig, n, canUdpGro)
    requires forall k :: 0 <= k < n && UdpFlow(orig[k]) == Some(key) ==> Tries(orig[k], canUdpGro)
    ensures forall a, b :: 0 <= a < b < n && UdpFlow(orig[a]) == UdpFlow(orig[b]) == Some(key) ==>
      WrittenBefore(w, a, b)
  {
    forall a, b | 0 <= a < b < n && UdpFlow(orig[a]) == UdpFlow(orig[b]) == Some(key) ensures WrittenBefore(w, a, b) {
      FlowOrder(w, orig, n, offset, canUdpGro, a, b);
    }
  }
}
