/** The whole state of coalescing as one value, and the steps on it. */
module GroWorld {
  import opened Bitwise
  import opened PacketFields
  import opened GroGroups
  import opened GroState

  /** The buffers and tables, and what is recorded about them: the item tracked at
      each buffer, the members of each buffer's group, each input's group, and the
      buffers whose item was dropped. */
  datatype World = World(bufs: seq<Buf>, tcpTable: Table, udpTable: Table,
                         itemAt: map<nat, Item>, members: seq<seq<nat>>, home: seq<nat>, dropped: set<nat>) {
    function Table(tcp: bool): Table {
      if tcp then tcpTable else udpTable
    }

    function WithList(tcp: bool, key: FlowKey, list: seq<Item>): World {
      if tcp then this.(tcpTable := tcpTable[key := list]) else this.(udpTable := udpTable[key := list])
    }

    ghost predicate Ok(orig: seq<seq<byte>>, n: nat, offset: nat) {
      && n <= |bufs| == |orig| == |members|
      && GroupsOk(bufs, itemAt, orig, members) && Partition(members, home, n)
      && Untouched(bufs, itemAt, orig, members, n)
      && TableOk(tcpTable, itemAt, true) && TableOk(udpTable, itemAt, false) && Covered(itemAt, tcpTable, udpTable)
      && Roomy(bufs, offset) && UdpOrdered(udpTable, members) && Plain(bufs, itemAt, members, dropped)
      && DroppedBad(orig, dropped)
    }
  }

  /** The same packets, capacities and places; only virtio headers may differ. */
  predicate SamePackets(bufs: seq<Buf>, bufs': seq<Buf>) {
    |bufs'| == |bufs| && forall j :: 0 <= j < |bufs| ==>
      bufs'[j].packet == bufs[j].packet && bufs'[j].capacity == bufs[j].capacity
  }

  ghost function Alone(w: World, bufs': seq<Buf>, n: nat): World
    requires n < |w.members|
  {
    w.(bufs := bufs', members := w.members[n := [n]], home := w.home + [n])
  }

  lemma StepAlone(w: World, bufs': seq<Buf>, orig: seq<seq<byte>>, n: nat, offset: nat)
    requires w.Ok(orig, n, offset) && n < |w.bufs| && SamePackets(w.bufs, bufs')
    requires w.members[n] == [] && bufs'[n].hdr == NO_HDR && forall j :: 0 <= j < |w.bufs| && j != n ==>
      bufs'[j] == w.bufs[j]
    ensures Alone(w, bufs', n).Ok(orig, n + 1, offset)
  {
    hide GroupOk, GroupsOk, Partition, Untouched, TableOk, Covered, UdpOrdered, Plain, DroppedBad, BadTcp;
    NotReached(w, orig, n, offset);
    PartitionAlone(w.members, w.home, n);
    UntouchedAlone(w.bufs, bufs', w.itemAt, orig, w.members, n);
    PlainAlone(w.bufs, bufs', w.itemAt, w.members, w.dropped, n);
    OrderedElsewhere(w.udpTable, w.itemAt, w.members, n, [n]);
    GroupsStay(w.bufs, bufs', w.itemAt, orig, w.members, n, [n]);
  }

  lemma NotReached(w: World, orig: seq<seq<byte>>, n: nat, offset: nat)
    requires w.Ok(orig, n, offset) && n < |w.bufs|
    ensures w.members[n] == [] && n !in w.itemAt && w.bufs[n].packet == orig[n]
  {
  }

  ghost function Inserted(w: World, item: Item, n: nat): World
    requires n < |w.members|
  {
    w.WithList(item.tcp, item.key, Items(w.Table(item.tcp), item.key) + [item])
     .(itemAt := w.itemAt[n := item], members := w.members[n := [n]], home := w.home + [n])
  }

  lemma ItemsBefore(w: World, orig: seq<seq<byte>>, n: nat, offset: nat)
    requires w.Ok(orig, n, offset)
    ensures forall b :: b in w.itemAt ==> w.itemAt[b].bufsIndex == b && b < n
  {
  }

  lemma StepInsert(w: World, item: Item, orig: seq<seq<byte>>, n: nat, offset: nat)
    requires w.Ok(orig, n, offset) && n < |w.bufs| && item.bufsIndex == n
    requires GroupOk(orig[n], item, orig, [n])
    ensures Inserted(w, item, n).Ok(orig, n + 1, offset)
  {
    hide GroupOk, GroupsOk, Partition, Untouched, TableOk, Covered, Roomy, UdpOrdered, Plain, DroppedBad, BadTcp;
    var table := w.Table(item.tcp);
    var list := Items(table, item.key);
    var w' := Inserted(w, item, n);
    ItemsBefore(w, orig, n, offset);
    PlainInsert(w.bufs, w.itemAt, w.members, w.dropped, n, item);
    NotReached(w, orig, n, offset);
    PartitionAlone(w.members, w.home, n);
    GroupsInsert(w.bufs, w.itemAt, orig, w.members, n, item);
    UntouchedInsert(w.bufs, w.itemAt, orig, w.members, n, item);
    TableInsert(table, w.itemAt, item.tcp, item, list);
    TableStays(w.Table(!item.tcp), w.itemAt, w'.itemAt, !item.tcp, item);
    BothTables(item.tcp, table[item.key := list + [item]], w.Table(!item.tcp), w'.tcpTable, w'.udpTable, w'.itemAt);
    CoveredWith(w.itemAt, w.tcpTable, w.udpTable, w'.tcpTable, w'.udpTable, item, list + [item]);
    if item.tcp {
      OrderedElsewhere(w.udpTable, w.itemAt, w.members, n, [n]);
    } else {
      OrderedInsert(w.udpTable, w.itemAt, w.members, w.home, n, item, list);
    }
  }

  /** What is known of an item of a flow. */
  lemma ItemFacts(w: World, orig: seq<seq<byte>>, n: nat, offset: nat, tcp: bool, key: FlowKey, i: nat)
    requires w.Ok(orig, n, offset) && key in w.Table(tcp) && i < |w.Table(tcp)[key]|
    ensures var item := w.Table(tcp)[key][i];
      && item.key == key && item.tcp == tcp && item.bufsIndex < n && item.bufsIndex in w.itemAt
      && w.itemAt[item.bufsIndex] == item && w.members[item.bufsIndex] != []
      && GroupOk(w.bufs[item.bufsIndex].packet, item, orig, w.members[item.bufsIndex])
      && (forall p :: 0 <= p < |w.members[item.bufsIndex]| ==> w.members[item.bufsIndex][p] < n)
    ensures forall b :: b in w.itemAt ==> w.itemAt[b].bufsIndex == b && b < n
  {
    assert Tracked(w.Table(tcp)[key][i], w.itemAt);
  }

  /** Item i of its flow replaced after a merge into its buffer. */
  ghost function Merged(w: World, bufs': seq<Buf>, i: nat, item: Item, ms: seq<nat>): World
    requires item.key in w.Table(item.tcp) && i < |w.Table(item.tcp)[item.key]| && item.bufsIndex < |w.members|
  {
    w.WithList(item.tcp, item.key, w.Table(item.tcp)[item.key][i := item])
     .(bufs := bufs', itemAt := w.itemAt[item.bufsIndex := item], members := w.members[item.bufsIndex := ms],
       home := w.home + [item.bufsIndex])
  }

  /** Only the item's buffer and buffer n changed, and both keep within their capacity. */
  ghost predicate BufsMerged(bufs: seq<Buf>, bufs': seq<Buf>, b: nat, n: nat, offset: nat) {
    && |bufs'| == |bufs| && b < |bufs| && n < |bufs|
    && (forall j :: 0 <= j < |bufs| && j != b && j != n ==> bufs'[j] == bufs[j])
    && bufs'[b].capacity <= 0xffff && offset + |bufs'[b].packet| <= bufs'[b].capacity
    && bufs'[n].capacity <= 0xffff && offset + |bufs'[n].packet| <= bufs'[n].capacity
  }

  lemma RoomyMerge(bufs: seq<Buf>, bufs': seq<Buf>, b: nat, n: nat, offset: nat)
    requires Roomy(bufs, offset) && BufsMerged(bufs, bufs', b, n, offset)
    ensures Roomy(bufs', offset)
  {
  }

  lemma StepMerge(w: World, bufs': seq<Buf>, orig: seq<seq<byte>>, n: nat, offset: nat, i: nat, item: Item,
      ms: seq<nat>)
    requires w.Ok(orig, n, offset) && n < |w.bufs|
    requires item.key in w.Table(item.tcp) && i < |w.Table(item.tcp)[item.key]|
    requires item.bufsIndex == w.Table(item.tcp)[item.key][i].bufsIndex < n
    requires BufsMerged(w.bufs, bufs', item.bufsIndex, n, offset)
    requires ms == w.members[item.bufsIndex] + [n] || ms == [n] + w.members[item.bufsIndex]
    requires GroupOk(bufs'[item.bufsIndex].packet, item, orig, ms)
    requires !item.tcp ==> i == |w.udpTable[item.key]| - 1 && ms == w.members[item.bufsIndex] + [n]
    ensures Merged(w, bufs', i, item, ms).Ok(orig, n + 1, offset)
  {
    hide GroupOk, GroupsOk, Partition, Untouched, TableOk, Covered, Roomy, UdpOrdered, Plain, DroppedBad, BadTcp;
    var b, table := item.bufsIndex, w.Table(item.tcp);
    var w' := Merged(w, bufs', i, item, ms);
    ItemFacts(w, orig, n, offset, item.tcp, item.key, i);
    NotReached(w, orig, n, offset);
    RoomyMerge(w.bufs, bufs', b, n, offset);
    PlainMerge(w.bufs, bufs', w.itemAt, w.members, w.dropped, n, item, ms);
    UntouchedMerge(w.bufs, bufs', w.itemAt, orig, w.members, n, item, ms);
    PartitionMerge(w.members, w.home, n, b, ms);
    GroupsMerge(w.bufs, bufs', w.itemAt, orig, w.members, b, item, ms);
    TableUpdate(table, w.itemAt, item.tcp, i, item);
    TableStays(w.Table(!item.tcp), w.itemAt, w'.itemAt, !item.tcp, item);
    BothTables(item.tcp, table[item.key := table[item.key][i := item]], w.Table(!item.tcp), w'.tcpTable, w'.udpTable,
      w'.itemAt);
    UpdatedList(table[item.key], i, item);
    CoveredWith(w.itemAt, w.tcpTable, w.udpTable, w'.tcpTable, w'.udpTable, item, table[item.key][i := item]);
    if item.tcp {
      OrderedElsewhere(w.udpTable, w.itemAt, w.members, b, ms);
    } else {
      OrderedMerge(w.udpTable, w.itemAt, w.members, w.home, n, item);
    }
  }

  lemma UpdatedList(list: seq<Item>, i: nat, item: Item)
    requires i < |list| && item.bufsIndex == list[i].bufsIndex
    ensures item in list[i := item]
    ensures forall x :: x in list && x.bufsIndex != item.bufsIndex ==> x in list[i := item]
  {
    var list' := list[i := item];
    assert list'[i] == item;
    forall x | x in list && x.bufsIndex != item.bufsIndex
      ensures x in list'
    {
      var j :| 0 <= j < |list| && list[j] == x;
      assert list'[j] == x;
    }
  }

  ghost function Dropped(w: World, key: FlowKey, i: nat): World
    requires key in w.tcpTable && i < |w.tcpTable[key]|
  {
    w.(tcpTable := w.tcpTable[key := w.tcpTable[key][..i] + w.tcpTable[key][i + 1..]],
      itemAt := w.itemAt - {w.tcpTable[key][i].bufsIndex},
       dropped := w.dropped + {w.tcpTable[key][i].bufsIndex})
  }

  lemma DroppedIsBad(packet: seq<byte>, item: Item, orig: seq<seq<byte>>, ms: seq<nat>)
    requires GroupOk(packet, item, orig, ms) && item.numMerged == 0
    requires !Verifies(packet, item.iphLen, IPPROTO_TCP, item.key.isV6)
    ensures item.bufsIndex < |orig| && BadTcp(orig[item.bufsIndex])
  {
    assert Belongs(orig, ms[0], item);
  }

  lemma StepDrop(w: World, orig: seq<seq<byte>>, n: nat, offset: nat, key: FlowKey, i: nat)
    requires w.Ok(orig, n, offset) && key in w.tcpTable && i < |w.tcpTable[key]|
    requires var item := w.tcpTable[key][i];
      item.numMerged == 0 && item.bufsIndex < n
        && !Verifies(w.bufs[item.bufsIndex].packet, item.iphLen, IPPROTO_TCP, item.key.isV6)
    ensures Dropped(w, key, i).Ok(orig, n, offset)
  {
    hide GroupOk, GroupsOk, Partition, Untouched, TableOk, Covered, Roomy, UdpOrdered, Plain, DroppedBad, BadTcp;
    var item := w.tcpTable[key][i];
    ItemFacts(w, orig, n, offset, true, key, i);
    DroppedIsBad(w.bufs[item.bufsIndex].packet, item, orig, w.members[item.bufsIndex]);
    PlainDrop(w.bufs, w.itemAt, w.members, orig, w.dropped, item.bufsIndex);
    GroupsDrop(w.bufs, w.itemAt, orig, w.members, n, item);
    TableDelete(w.tcpTable, w.itemAt, true, key, i);
    TableStays(w.udpTable, w.itemAt, w.itemAt - {item.bufsIndex}, false, item);
    CoveredDelete(w.itemAt, w.tcpTable, w.udpTable, key, i);
  }
}
