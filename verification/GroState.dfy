/** What holds of the buffers and tables between packets of a batch, and what
    each step of coalescing does to it. */
module GroState {
  import opened Bitwise
  import opened PacketFields
  import opened Gso
  import opened GroGroups

  /** A buffer: the packet in it, how long it may get, and the virtio header in front. */
  datatype Buf = Buf(packet: seq<byte>, capacity: nat, hdr: VirtioNetHdr)

  type Table = map<FlowKey, seq<Item>>

  /** Every tracked item describes the buffer it names, as the merge of its members. */
  ghost predicate GroupsOk(bufs: seq<Buf>, itemAt: map<nat, Item>, orig: seq<seq<byte>>, members: seq<seq<nat>>) {
    && |bufs| == |orig| == |members|
    && forall b :: b in itemAt ==>
      b < |bufs| && itemAt[b].bufsIndex == b && GroupOk(bufs[b].packet, itemAt[b], orig, members[b])
  }

  /** The group is what the item says; a packet alone is untouched, and no packet
      with a bad checksum is ever merged. */
  ghost predicate GroupOk(packet: seq<byte>, item: Item, orig: seq<seq<byte>>, ms: seq<nat>) {
    && IsGroup(packet, item, orig, ms) && Flagged(packet, item, orig, ms)
    && (item.numMerged == 0 ==> ms == [item.bufsIndex] && packet == orig[item.bufsIndex])
    && (item.numMerged > 0 ==> forall p :: 0 <= p < |ms| ==> Honest(orig, ms[p], item))
    && (item.cSumKnownInvalid ==>
          !item.tcp && item.numMerged == 0 && !Verifies(packet, item.iphLen, item.Protocol(), item.key.isV6))
    && (!item.tcp ==> Ascending(ms))
  }

  ghost predicate Honest(orig: seq<seq<byte>>, k: nat, item: Item) {
    k < |orig| && Verifies(orig[k], item.iphLen, item.Protocol(), item.key.isV6)
  }

  ghost predicate Ascending(s: seq<nat>) {
    forall i, j :: 0 <= i < j < |s| ==> s[i] < s[j]
  }

  /** Each of the first n inputs is a member of exactly one group, once. */
  ghost predicate Partition(members: seq<seq<nat>>, home: seq<nat>, n: nat) {
    && |home| == n <= |members|
    && (forall k :: 0 <= k < n ==> home[k] < n && k in members[home[k]])
    && (forall j, p :: 0 <= j < |members| && 0 <= p < |members[j]| ==> members[j][p] < n && home[members[j][p]] == j)
    && (forall j :: n <= j < |members| ==> members[j] == [])
    && (forall j, p, q :: 0 <= j < |members| && 0 <= p < q < |members[j]| ==> members[j][p] != members[j][q])
  }

  /** Buffers not reached yet, and packets nothing was merged with, are as they came. */
  ghost predicate Untouched(bufs: seq<Buf>, itemAt: map<nat, Item>, orig: seq<seq<byte>>, members: seq<seq<nat>>,
      n: nat) {
    && |bufs| == |orig| == |members|
    && (forall j :: n <= j < |bufs| ==> bufs[j].packet == orig[j] && j !in itemAt)
    && (forall j :: 0 <= j < n && j < |bufs| && members[j] != [] && j !in itemAt ==>
          bufs[j].packet == orig[j] && members[j] == [j])
  }

  /** The items of a table are tracked, each in its own flow and buffer. */
  ghost predicate TableOk(table: Table, itemAt: map<nat, Item>, tcp: bool) {
    && (forall key, i :: key in table && 0 <= i < |table[key]| ==>
          Tracked(table[key][i], itemAt) && table[key][i].key == key && table[key][i].tcp == tcp)
    && (forall key, i, j :: key in table && 0 <= i < j < |table[key]| ==>
          table[key][i].bufsIndex != table[key][j].bufsIndex)
  }

  ghost predicate Tracked(item: Item, itemAt: map<nat, Item>) {
    item.bufsIndex in itemAt && itemAt[item.bufsIndex] == item
  }

  /** Every tracked item is in its table. */
  ghost predicate Covered(itemAt: map<nat, Item>, tcpTable: Table, udpTable: Table) {
    forall b :: b in itemAt ==> InTable(itemAt[b], if itemAt[b].tcp then tcpTable else udpTable)
  }

  ghost predicate InTable(item: Item, table: Table) {
    item.key in table && item in table[item.key]
  }

  ghost predicate Roomy(bufs: seq<Buf>, offset: nat) {
    forall j :: 0 <= j < |bufs| ==> bufs[j].capacity <= 0xffff && offset + |bufs[j].packet| <= bufs[j].capacity
  }

  /** All members of one buffer's group came before all of the other's. */
  ghost predicate Before(members: seq<seq<nat>>, a: nat, b: nat) {
    && a < |members| && b < |members|
    && forall p, q :: 0 <= p < |members[a]| && 0 <= q < |members[b]| ==> members[a][p] < members[b][q]
  }

  /** The items of a UDP flow are in order of arrival, and a flow once seen has one. */
  ghost predicate UdpOrdered(udpTable: Table, members: seq<seq<nat>>) {
    && (forall key :: key in udpTable ==> udpTable[key] != [])
    && (forall key, i, j :: key in udpTable && 0 <= i < j < |udpTable[key]| ==>
          udpTable[key][i].bufsIndex < udpTable[key][j].bufsIndex
            && Before(members, udpTable[key][i].bufsIndex, udpTable[key][j].bufsIndex))
  }

  /** A packet that is written alone has an empty virtio header, unless its item was
      dropped for a bad checksum. */
  ghost predicate Plain(bufs: seq<Buf>, itemAt: map<nat, Item>, members: seq<seq<nat>>, dropped: set<nat>) {
    && |bufs| == |members|
    && forall j :: 0 <= j < |bufs| && members[j] != [] && j !in itemAt && j !in dropped ==> bufs[j].hdr == NO_HDR
  }

  /** A TCP packet whose checksum does not verify. */
  ghost predicate BadTcp(pkt: seq<byte>) {
    pkt != [] && var isV6 := pkt[0] / 16 == 6; !Verifies(pkt, MinIpHeader(isV6), IPPROTO_TCP, isV6)
  }

  /** Items are dropped for a bad checksum only. */
  ghost predicate DroppedBad(orig: seq<seq<byte>>, dropped: set<nat>) {
    forall j :: j in dropped ==> j < |orig| && BadTcp(orig[j])
  }

  const NO_HDR := VirtioNetHdr(false, GsoNone, 0, 0, 0, 0)

  /** The list of a flow names exactly the buffers of the flow's items. */
  lemma FlowHolds(table: Table, itemAt: map<nat, Item>, tcpTable: Table, udpTable: Table, tcp: bool, key: FlowKey,
      b: nat)
    requires table == (if tcp then tcpTable else udpTable) && TableOk(table, itemAt, tcp) && key in table
    requires Covered(itemAt, tcpTable, udpTable) && forall c :: c in itemAt ==> itemAt[c].bufsIndex == c
    ensures (exists j :: 0 <= j < |table[key]| && table[key][j].bufsIndex == b) <==>
      b in itemAt && itemAt[b].tcp == tcp && itemAt[b].key == key
  {
    var items := table[key];
    if b in itemAt && itemAt[b].tcp == tcp && itemAt[b].key == key {
      assert InTable(itemAt[b], table);
      var j :| 0 <= j < |items| && items[j] == itemAt[b];
      assert items[j].bufsIndex == b;
    }
    if j :| 0 <= j < |items| && items[j].bufsIndex == b {
      assert Tracked(items[j], itemAt);
    }
  }

  // ----- a packet alone

  lemma PartitionAlone(members: seq<seq<nat>>, home: seq<nat>, n: nat)
    requires Partition(members, home, n) && n < |members| && members[n] == []
    ensures Partition(members[n := [n]], home + [n], n + 1)
  {
    var members', home' := members[n := [n]], home + [n];
    forall k | 0 <= k < n + 1
      ensures home'[k] < n + 1 && k in members'[home'[k]]
    {
      if k == n {
        assert members'[n][0] == n;
      } else {
        assert members'[home[k]] == members[home[k]];
      }
    }
  }

  lemma GroupsStay(bufs: seq<Buf>, bufs': seq<Buf>, itemAt: map<nat, Item>, orig: seq<seq<byte>>,
      members: seq<seq<nat>>, n: nat, ms: seq<nat>)
    requires GroupsOk(bufs, itemAt, orig, members) && n !in itemAt && n < |members|
    requires |bufs'| == |bufs| && forall j :: 0 <= j < |bufs| ==> bufs'[j].packet == bufs[j].packet
    ensures GroupsOk(bufs', itemAt, orig, members[n := ms])
  {
    hide GroupOk;
  }

  /** A packet on its own is a group of one. */
  lemma GroupOfOne(item: Item, orig: seq<seq<byte>>, n: nat)
    requires Belongs(orig, n, item) && item.numMerged == 0 && item.bufsIndex == n
    requires item.cSumKnownInvalid ==>
      !item.tcp && !Verifies(orig[n], item.iphLen, item.Protocol(), item.key.isV6)
    requires item.gsoSize == |orig[n]| - item.HeadersLen()
    requires item.tcp ==> item.sentSeq == SeqNum(orig, n, item) && Flags(orig[n], item) == AckFlags(item.pshSet)
    ensures GroupOk(orig[n], item, orig, [n])
  {
    var ms, h := [n], item.HeadersLen();
    assert Belongs(orig, ms[0], item) && Long(orig, ms, h);
    assert ms[..0] == [] && Joined(orig, ms[..0], h) == [];
    assert Joined(orig, ms, h) == Payload(orig, n, h);
    forall j | 0 <= j < |ms|
      ensures item.tcp ==> SeqNum(orig, ms[j], item) == (item.sentSeq + item.gsoSize * j) % 0x1_0000_0000
    {
      assert item.gsoSize * 0 == 0;
    }
  }

  lemma GroupsInsert(bufs: seq<Buf>, itemAt: map<nat, Item>, orig: seq<seq<byte>>, members: seq<seq<nat>>, n: nat,
      item: Item)
    requires GroupsOk(bufs, itemAt, orig, members) && n < |members| && n !in itemAt
    requires item.bufsIndex == n && GroupOk(bufs[n].packet, item, orig, [n])
    ensures GroupsOk(bufs, itemAt[n := item], orig, members[n := [n]])
  {
    hide GroupOk;
  }

  lemma TableInsert(table: Table, itemAt: map<nat, Item>, tcp: bool, item: Item, list: seq<Item>)
    requires TableOk(table, itemAt, tcp) && item.bufsIndex !in itemAt && item.tcp == tcp
    requires list == if item.key in table then table[item.key] else []
    ensures TableOk(table[item.key := list + [item]], itemAt[item.bufsIndex := item], tcp)
  {
    var table', itemAt' := table[item.key := list + [item]], itemAt[item.bufsIndex := item];
    forall key, i | key in table' && 0 <= i < |table'[key]|
      ensures Tracked(table'[key][i], itemAt') && table'[key][i].key == key && table'[key][i].tcp == tcp
    {
      if !(key == item.key && i == |list|) {
        assert Tracked(table[key][i], itemAt);
      }
    }
    forall key, i, j | key in table' && 0 <= i < j < |table'[key]|
      ensures table'[key][i].bufsIndex != table'[key][j].bufsIndex
    {
      assert Tracked(table[key][i], itemAt);
    }
  }

  lemma TableStays(table: Table, itemAt: map<nat, Item>, itemAt': map<nat, Item>, tcp: bool, item: Item)
    requires TableOk(table, itemAt, tcp) && item.tcp != tcp
    requires item.bufsIndex in itemAt ==> itemAt[item.bufsIndex].tcp != tcp
    requires itemAt' == itemAt[item.bufsIndex := item] || itemAt' == itemAt - {item.bufsIndex}
    ensures TableOk(table, itemAt', tcp)
  {
    forall key, i | key in table && 0 <= i < |table[key]|
      ensures Tracked(table[key][i], itemAt')
    {
      assert Tracked(table[key][i], itemAt);
    }
  }

  /** Replacing or adding one item keeps every item in its table. */
  lemma CoveredWith(itemAt: map<nat, Item>, tcpTable: Table, udpTable: Table, tcpTable': Table, udpTable': Table,
      item: Item, list: seq<Item>)
    requires Covered(itemAt, tcpTable, udpTable)
    requires item in list
    requires var before := Items(if item.tcp then tcpTable else udpTable, item.key);
      forall x :: x in before && x.bufsIndex != item.bufsIndex ==> x in list
    requires if item.tcp then tcpTable' == tcpTable[item.key := list] && udpTable' == udpTable
             else udpTable' == udpTable[item.key := list] && tcpTable' == tcpTable
    requires forall b :: b in itemAt ==> itemAt[b].bufsIndex == b
    ensures Covered(itemAt[item.bufsIndex := item], tcpTable', udpTable')
  {
    var itemAt' := itemAt[item.bufsIndex := item];
    forall b | b in itemAt'
      ensures InTable(itemAt'[b], if itemAt'[b].tcp then tcpTable' else udpTable')
    {
      if b != item.bufsIndex {
        assert InTable(itemAt[b], if itemAt[b].tcp then tcpTable else udpTable);
      }
    }
  }

  function Items(table: Table, key: FlowKey): seq<Item> {
    if key in table then table[key] else []
  }

  // ----- a packet merged into a group

  lemma PartitionMerge(members: seq<seq<nat>>, home: seq<nat>, n: nat, b: nat, ms: seq<nat>)
    requires Partition(members, home, n) && b < n < |members| && members[n] == [] && members[b] != []
    requires ms == members[b] + [n] || ms == [n] + members[b]
    ensures Partition(members[b := ms], home + [b], n + 1)
  {
    var members', home' := members[b := ms], home + [b];
    assert n in ms && forall k :: k in members[b] ==> k in ms;
    forall k | 0 <= k < n + 1
      ensures home'[k] < n + 1 && k in members'[home'[k]]
    {
      if k < n {
        assert k in members[home[k]];
      }
    }
    forall j, p | 0 <= j < |members'| && 0 <= p < |members'[j]|
      ensures members'[j][p] < n + 1 && home'[members'[j][p]] == j
    {
      if j == b && members'[j][p] != n {
        assert members'[j][p] in members[b];
      }
    }
  }

  lemma GroupsMerge(bufs: seq<Buf>, bufs': seq<Buf>, itemAt: map<nat, Item>, orig: seq<seq<byte>>,
      members: seq<seq<nat>>, b: nat, item: Item, ms: seq<nat>)
    requires GroupsOk(bufs, itemAt, orig, members) && b in itemAt && item.bufsIndex == b
    requires |bufs'| == |bufs| && forall j :: j in itemAt && j != b ==> bufs'[j].packet == bufs[j].packet
    requires GroupOk(bufs'[b].packet, item, orig, ms)
    ensures GroupsOk(bufs', itemAt[b := item], orig, members[b := ms])
  {
    hide GroupOk;
  }

  lemma TableUpdate(table: Table, itemAt: map<nat, Item>, tcp: bool, i: nat, item: Item)
    requires TableOk(table, itemAt, tcp) && item.tcp == tcp && item.key in table && i < |table[item.key]|
    requires item.bufsIndex == table[item.key][i].bufsIndex
    ensures TableOk(table[item.key := table[item.key][i := item]], itemAt[item.bufsIndex := item], tcp)
  {
    var table', itemAt' := table[item.key := table[item.key][i := item]], itemAt[item.bufsIndex := item];
    assert Tracked(table[item.key][i], itemAt);
    forall key, j | key in table' && 0 <= j < |table'[key]|
      ensures Tracked(table'[key][j], itemAt') && table'[key][j].key == key && table'[key][j].tcp == tcp
    {
      if !(key == item.key && i == j) {
        assert Tracked(table[key][j], itemAt);
        assert table[key][j].bufsIndex != item.bufsIndex;
      }
    }
  }

  // ----- an item dropped

  lemma TableDelete(table: Table, itemAt: map<nat, Item>, tcp: bool, key: FlowKey, i: nat)
    requires TableOk(table, itemAt, tcp) && key in table && i < |table[key]|
    ensures TableOk(table[key := table[key][..i] + table[key][i + 1..]], itemAt - {table[key][i].bufsIndex}, tcp)
  {
    var item := table[key][i];
    var table', itemAt' := table[key := table[key][..i] + table[key][i + 1..]], itemAt - {item.bufsIndex};
    assert Tracked(item, itemAt) && item.key == key;
    forall key', j | key' in table' && 0 <= j < |table'[key']|
      ensures Tracked(table'[key'][j], itemAt') && table'[key'][j].key == key' && table'[key'][j].tcp == tcp
    {
      var j' := if key' == key && j >= i then j + 1 else j;
      assert table'[key'][j] == table[key'][j'];
      assert Tracked(table[key'][j'], itemAt);
      assert table[key'][j'].bufsIndex != item.bufsIndex;
    }
  }

  lemma CoveredDelete(itemAt: map<nat, Item>, tcpTable: Table, udpTable: Table, key: FlowKey, i: nat)
    requires Covered(itemAt, tcpTable, udpTable) && TableOk(tcpTable, itemAt, true) && key in tcpTable
    requires i < |tcpTable[key]|
    requires forall b :: b in itemAt ==> itemAt[b].bufsIndex == b
    ensures Covered(itemAt - {tcpTable[key][i].bufsIndex}, tcpTable[key := tcpTable[key][..i] + tcpTable[key][i + 1..]],
      udpTable)
  {
    var list := tcpTable[key][..i] + tcpTable[key][i + 1..];
    var itemAt' := itemAt - {tcpTable[key][i].bufsIndex};
    forall b | b in itemAt' && itemAt'[b].tcp && itemAt'[b].key == key
      ensures itemAt'[b] in list
    {
      assert InTable(itemAt[b], tcpTable);
      var j :| 0 <= j < |tcpTable[key]| && tcpTable[key][j] == itemAt[b];
      assert j != i;
      assert list[if j < i then j else j - 1] == itemAt[b];
    }
    assert forall b :: b in itemAt' ==> InTable(itemAt[b], if itemAt[b].tcp then tcpTable else udpTable);
  }

  lemma UntouchedMerge(bufs: seq<Buf>, bufs': seq<Buf>, itemAt: map<nat, Item>, orig: seq<seq<byte>>,
      members: seq<seq<nat>>, n: nat, item: Item, ms: seq<nat>)
    requires Untouched(bufs, itemAt, orig, members, n) && item.bufsIndex < n < |bufs| == |bufs'| && members[n] == []
    requires forall j :: 0 <= j < |bufs| && j != item.bufsIndex && j != n ==> bufs'[j] == bufs[j]
    ensures Untouched(bufs', itemAt[item.bufsIndex := item], orig, members[item.bufsIndex := ms], n + 1)
  {
  }

  lemma GroupsDrop(bufs: seq<Buf>, itemAt: map<nat, Item>, orig: seq<seq<byte>>, members: seq<seq<nat>>, n: nat,
      item: Item)
    requires GroupsOk(bufs, itemAt, orig, members) && Untouched(bufs, itemAt, orig, members, n)
    requires Tracked(item, itemAt) && item.numMerged == 0
    ensures GroupsOk(bufs, itemAt - {item.bufsIndex}, orig, members)
    ensures Untouched(bufs, itemAt - {item.bufsIndex}, orig, members, n)
  {
    hide IsGroup;
    var b := item.bufsIndex;
    assert GroupOk(bufs[b].packet, item, orig, members[b]);
  }

  lemma UntouchedInsert(bufs: seq<Buf>, itemAt: map<nat, Item>, orig: seq<seq<byte>>, members: seq<seq<nat>>, n: nat,
      item: Item)
    requires Untouched(bufs, itemAt, orig, members, n) && n < |bufs|
    ensures Untouched(bufs, itemAt[n := item], orig, members[n := [n]], n + 1)
  {
  }

  /** Both tables are sound when the changed one and the other are. */
  lemma BothTables(tcp: bool, table: Table, other: Table, tcpTable: Table, udpTable: Table, itemAt: map<nat, Item>)
    requires TableOk(table, itemAt, tcp) && TableOk(other, itemAt, !tcp)
    requires if tcp then tcpTable == table && udpTable == other else tcpTable == other && udpTable == table
    ensures TableOk(tcpTable, itemAt, true) && TableOk(udpTable, itemAt, false)
  {
  }

  // ----- merging two packets that verify

  lemma MembersHonest(packet: seq<byte>, item: Item, orig: seq<seq<byte>>, ms: seq<nat>, p: nat)
    requires GroupOk(packet, item, orig, ms) && p < |ms|
    requires item.numMerged == 0 ==> Verifies(packet, item.iphLen, item.Protocol(), item.key.isV6)
    ensures Honest(orig, ms[p], item)
  {
  }

  /** Appending to a sound group gives a sound group. */
  lemma AppendOk(packet: seq<byte>, item: Item, orig: seq<seq<byte>>, ms: seq<nat>, k: nat, offer: Offer, item': Item,
      flagged: seq<byte>)
    requires GroupOk(packet, item, orig, ms) && Offers(orig, k, offer, item)
    requires Allows(Append, orig[k], offer, item, packet)
    requires |packet| + offer.gsoSize <= 0xffff
    requires item'.numMerged == item.numMerged + 1
    requires item' == item.(numMerged := item'.numMerged, pshSet := item'.pshSet)
    requires |flagged| == |packet| && HeadersOf(flagged, packet, item)
    requires flagged[item.HeadersLen()..] == packet[item.HeadersLen()..]
    requires item.tcp ==>
      item'.pshSet == (item.pshSet || offer.pshSet) && flagged == if offer.pshSet then WithPsh(packet, item) else packet
    requires Honest(orig, k, item)
    requires (item.numMerged == 0 ==> Verifies(packet, item.iphLen, item.Protocol(), item.key.isV6))
    requires forall p :: 0 <= p < |ms| ==> ms[p] < k
    ensures GroupOk(Appended(flagged, orig[k], item.HeadersLen()), item', orig, ms + [k])
  {
    AppendKeepsGroup(packet, item, orig, ms, k, offer, item', flagged);
    AppendNeeds(orig[k], offer, item, packet);
    hide Allows, Belongs, HeadersOf, Members, Joined;
    AppendFlagged(packet, item, orig, ms, k, offer, item', flagged);
    forall p | 0 <= p < |ms| + 1
      ensures Honest(orig, (ms + [k])[p], item')
    {
      if p < |ms| {
        MembersHonest(packet, item, orig, ms, p);
      }
    }
  }

  lemma PrependOk(packet: seq<byte>, item: Item, orig: seq<seq<byte>>, ms: seq<nat>, k: nat, offer: Offer, item': Item)
    requires GroupOk(packet, item, orig, ms) && Offers(orig, k, offer, item) && item.tcp
    requires Allows(Prepend, orig[k], offer, item, packet)
    requires |packet| + offer.gsoSize <= 0xffff && item'.numMerged == item.numMerged + 1
    requires item' == item.(numMerged := item'.numMerged, sentSeq := offer.seqNum, gsoSize := offer.gsoSize)
    requires Honest(orig, k, item)
    requires (item.numMerged == 0 ==> Verifies(packet, item.iphLen, item.Protocol(), item.key.isV6))
    requires forall p :: 0 <= p < |ms| ==> ms[p] < k
    ensures GroupOk(Prepended(packet, orig[k], item.HeadersLen()), item', orig, [k] + ms)
  {
    PrependKeepsGroup(packet, item, orig, ms, k, offer, item');
    PrependNeeds(orig[k], offer, item, packet);
    hide Allows, Belongs, HeadersOf, Members, Joined;
    PrependFlagged(packet, item, orig, ms, k, offer, item');
    forall p | 0 <= p < |ms| + 1
      ensures Honest(orig, ([k] + ms)[p], item')
    {
      if p > 0 {
        MembersHonest(packet, item, orig, ms, p - 1);
      }
    }
  }

  /** A group never merges so many packets that their count would not fit 16 bits. */
  lemma CountFits(packet: seq<byte>, item: Item, orig: seq<seq<byte>>, ms: seq<nat>)
    requires IsGroup(packet, item, orig, ms)
    ensures |ms| + item.HeadersLen() <= |packet|
  {
    var g, m := item.gsoSize, |ms| - 1;
    JoinedLength(orig, ms, item.HeadersLen(), g);
    AtLeastCount(g, m);
  }

  lemma AtLeastCount(g: nat, m: nat)
    requires g >= 1
    ensures g * m >= m
  {
  }

  // ----- UDP flows keep their order

  /** Changing the group of a buffer that no UDP item names does not matter. */
  lemma OrderedElsewhere(udpTable: Table, itemAt: map<nat, Item>, members: seq<seq<nat>>, b: nat, ms: seq<nat>)
    requires UdpOrdered(udpTable, members) && TableOk(udpTable, itemAt, false) && b < |members|
    requires b in itemAt ==> itemAt[b].tcp
    ensures UdpOrdered(udpTable, members[b := ms])
  {
    forall key, i, j | key in udpTable && 0 <= i < j < |udpTable[key]|
      ensures Before(members[b := ms], udpTable[key][i].bufsIndex, udpTable[key][j].bufsIndex)
    {
      assert Tracked(udpTable[key][i], itemAt) && Tracked(udpTable[key][j], itemAt);
      assert Before(members, udpTable[key][i].bufsIndex, udpTable[key][j].bufsIndex);
    }
  }

  lemma OrderedInsert(udpTable: Table, itemAt: map<nat, Item>, members: seq<seq<nat>>, home: seq<nat>, n: nat,
      item: Item, list: seq<Item>)
    requires UdpOrdered(udpTable, members) && TableOk(udpTable, itemAt, false) && Partition(members, home, n)
    requires n < |members|
    requires forall b :: b in itemAt ==> b < n
    requires item.bufsIndex == n && list == Items(udpTable, item.key)
    ensures UdpOrdered(udpTable[item.key := list + [item]], members[n := [n]])
  {
    var table': Table := udpTable[item.key := list + [item]];
    var members' := members[n := [n]];
    forall key, i, j | key in table' && 0 <= i < j < |table'[key]|
      ensures table'[key][i].bufsIndex < table'[key][j].bufsIndex
      ensures Before(members', table'[key][i].bufsIndex, table'[key][j].bufsIndex)
    {
      assert Tracked(udpTable[key][i], itemAt);
      if !(key == item.key && j == |list|) {
        assert Tracked(udpTable[key][j], itemAt);
        assert Before(members, udpTable[key][i].bufsIndex, udpTable[key][j].bufsIndex);
      }
    }
  }

  /** Only the last item of a flow takes in packets. */
  lemma OrderedMerge(udpTable: Table, itemAt: map<nat, Item>, members: seq<seq<nat>>, home: seq<nat>, n: nat,
      item: Item)
    requires UdpOrdered(udpTable, members) && TableOk(udpTable, itemAt, false) && Partition(members, home, n)
    requires item.key in udpTable
    requires item.bufsIndex == udpTable[item.key][|udpTable[item.key]| - 1].bufsIndex < |members|
    ensures var list := udpTable[item.key]; var b := item.bufsIndex;
      UdpOrdered(udpTable[item.key := list[|list| - 1 := item]], members[b := members[b] + [n]])
  {
    var list, b := udpTable[item.key], item.bufsIndex;
    var table': Table := udpTable[item.key := list[|list| - 1 := item]];
    var members' := members[b := members[b] + [n]];
    assert Tracked(list[|list| - 1], itemAt);
    forall key, i, j | key in table' && 0 <= i < j < |table'[key]|
      ensures table'[key][i].bufsIndex < table'[key][j].bufsIndex
      ensures Before(members', table'[key][i].bufsIndex, table'[key][j].bufsIndex)
    {
      assert Tracked(udpTable[key][i], itemAt) && Tracked(udpTable[key][j], itemAt);
      assert udpTable[key][i].bufsIndex < udpTable[key][j].bufsIndex;
      assert Before(members, udpTable[key][i].bufsIndex, udpTable[key][j].bufsIndex);
      assert udpTable[key][i].bufsIndex != b;
    }
  }

  lemma PlainMerge(bufs: seq<Buf>, bufs': seq<Buf>, itemAt: map<nat, Item>, members: seq<seq<nat>>, dropped: set<nat>,
      n: nat, item: Item, ms: seq<nat>)
    requires Plain(bufs, itemAt, members, dropped) && item.bufsIndex < |bufs| == |bufs'| && n < |bufs|
    requires members[n] == [] && n != item.bufsIndex
    requires forall j :: 0 <= j < |bufs| && j != item.bufsIndex && j != n ==> bufs'[j] == bufs[j]
    ensures Plain(bufs', itemAt[item.bufsIndex := item], members[item.bufsIndex := ms], dropped)
  {
  }

  lemma PlainAlone(bufs: seq<Buf>, bufs': seq<Buf>, itemAt: map<nat, Item>, members: seq<seq<nat>>, dropped: set<nat>,
      n: nat)
    requires Plain(bufs, itemAt, members, dropped) && n < |bufs| == |bufs'| && bufs'[n].hdr == NO_HDR
    requires forall j :: 0 <= j < |bufs| && j != n ==> bufs'[j] == bufs[j]
    ensures Plain(bufs', itemAt, members[n := [n]], dropped)
  {
  }

  lemma UntouchedAlone(bufs: seq<Buf>, bufs': seq<Buf>, itemAt: map<nat, Item>, orig: seq<seq<byte>>,
      members: seq<seq<nat>>, n: nat)
    requires Untouched(bufs, itemAt, orig, members, n) && n < |bufs| == |bufs'|
    requires forall j :: 0 <= j < |bufs| ==> bufs'[j].packet == bufs[j].packet
    ensures Untouched(bufs', itemAt, orig, members[n := [n]], n + 1)
  {
  }

  lemma PlainInsert(bufs: seq<Buf>, itemAt: map<nat, Item>, members: seq<seq<nat>>, dropped: set<nat>, n: nat,
      item: Item)
    requires Plain(bufs, itemAt, members, dropped) && n < |bufs|
    ensures Plain(bufs, itemAt[n := item], members[n := [n]], dropped)
  {
  }

  lemma PlainDrop(bufs: seq<Buf>, itemAt: map<nat, Item>, members: seq<seq<nat>>, orig: seq<seq<byte>>,
      dropped: set<nat>, b: nat)
    requires Plain(bufs, itemAt, members, dropped) && DroppedBad(orig, dropped) && b < |orig| && BadTcp(orig[b])
    ensures Plain(bufs, itemAt - {b}, members, dropped + {b}) && DroppedBad(orig, dropped + {b})
  {
  }
}
