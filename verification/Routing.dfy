/** What the routing table means, on snapshots of its tries: longest-prefix match, the
    state of its search loops, and how each insertion and removal keeps table, entry
    lists and routes in step. */
module Routing {
  import opened Bitwise
  import opened AddressBits
  import opened Trie

  /** r is the peer of the longest prefix in routes that covers ip, or null when none does. */
  ghost predicate IsLongestMatch(routes: map<Prefix, Peer>, ip: Address, r: Peer?) {
    if r == null then
      forall q :: q in routes ==> !q.Covers(ip)
    else
      exists q :: && q in routes && q.Covers(ip) && routes[q] == r
                  && forall q' :: q' in routes && q'.Covers(ip) ==> |q'.bits| <= |q.bits|
  }

  /** node is what the search for w finds in the slot after parent. */
  ghost predicate AtSlot(t: Snapshot, parent: TrieEntry?, node: TrieEntry?, w: seq<bool>) {
    if node == null then Beyond(parent, w) !in t.held
    else
      && Beyond(parent, w) in t.held && t.held[Beyond(parent, w)] == node
      && node in t.up && 8 * node.size == |w| && (parent != null ==> |parent.key| < |node.key|)
  }

  // ----- lookup

  /** best is the longest visited node that has a peer, and found is its peer. */
  ghost predicate BestOf(owner: map<TrieEntry, Peer?>, visited: set<TrieEntry>, best: TrieEntry?, found: Peer?) {
    && (forall v :: v in visited ==> v in owner)
    && (best == null <==> found == null)
    && (best != null ==> best in visited && owner[best] == found)
    && (forall v :: v in visited && owner[v] != null ==> best != null && |v.key| <= |best.key|)
  }

  lemma BestIsLongest(t: Snapshot, routes: map<Prefix, Peer>, visited: set<TrieEntry>, best: TrieEntry?, found: Peer?,
      ip: Address)
    requires t.Linked() && Routed(t.owner, routes)
    requires ClosedPath(t, visited, Bits(ip), 8 * |ip|) && BestOf(t.owner, visited, best, found)
    requires forall v :: v in visited ==> OnWay(v, Bits(ip), 8 * |ip|)
    ensures IsLongestMatch(routes, ip, found)
  {
    var w := Bits(ip);
    forall q | q in routes && q.Covers(ip)
      ensures best != null && |q.bits| <= |best.key|
    {
      var n :| n in t.owner && n.Key() == q && t.owner[n] == routes[q];
      PathComplete(t, visited, w, |w|, n);
    }
    if best != null {
      assert best.Key() in routes && best.Key().Covers(ip) && routes[best.Key()] == found;
    }
  }

  /** The state of the lookup loop for ip. */
  ghost predicate LookingUp(t: Snapshot, visited: set<TrieEntry>, parent: TrieEntry?, ip: Address, best: TrieEntry?,
      found: Peer?) {
    Searching(t, visited, parent, Bits(ip), 8 * |ip|) && BestOf(t.owner, visited, best, found)
  }

  lemma LookupStarts(t: Snapshot, ip: Address)
    ensures LookingUp(t, {}, null, ip, null, null)
  {
  }

  lemma LookupStep(t: Snapshot, routes: map<Prefix, Peer>, visited: set<TrieEntry>, parent: TrieEntry?,
      node: TrieEntry, ip: Address,
                   best: TrieEntry?, found: Peer?, best': TrieEntry?, found': Peer?)
    requires t.Linked() && Routed(t.owner, routes) && LookingUp(t, visited, parent, ip, best, found)
    requires AtSlot(t, parent, node, Bits(ip)) && node.key <= Bits(ip)
    requires best' == (if node in t.owner && t.owner[node] != null then node else best)
    requires found' == (if node in t.owner && t.owner[node] != null then t.owner[node] else found)
    ensures if node.cidr == 8 * |ip| then IsLongestMatch(routes, ip, found')
            else |node.key| < 8 * |ip| && LookingUp(t, visited + {node}, node, ip, best', found')
  {
    var w := Bits(ip);
    SearchNext(t, visited, parent, w, |w|, node);
    assert BestOf(t.owner, visited + {node}, best', found');
    if node.cidr == 8 * |ip| {
      SearchEndFull(t, visited, parent, w, |w|, node);
      BestIsLongest(t, routes, visited + {node}, best', found', ip);
    } else {
      SearchStep(t, visited, parent, w, |w|, node);
    }
  }

  lemma LookupEnd(t: Snapshot, routes: map<Prefix, Peer>, visited: set<TrieEntry>, parent: TrieEntry?,
      node: TrieEntry?, ip: Address, best: TrieEntry?, found: Peer?)
    requires t.Linked() && Routed(t.owner, routes) && LookingUp(t, visited, parent, ip, best, found)
    requires AtSlot(t, parent, node, Bits(ip)) && (node != null ==> !(node.key <= Bits(ip)))
    ensures IsLongestMatch(routes, ip, found)
  {
    SearchEnd(t, visited, parent, Bits(ip), 8 * |ip|);
    BestIsLongest(t, routes, visited, best, found, ip);
  }

  // ----- placement

  /** Where the search for the prefix of the first cidr bits of w ends: at its node, or
      below the last node that covers it. */
  ghost predicate Placed(t: Snapshot, parent: TrieEntry?, exact: bool, visited: set<TrieEntry>, w: seq<bool>,
      cidr: nat) {
    && ClosedPath(t, visited, w, cidr)
    && (forall v :: v in visited ==> parent != null && |v.key| <= |parent.key|)
    && (parent != null ==> parent in t.up && OnWay(parent, w, cidr))
    && (exact <==> parent != null && |parent.key| == cidr)
    && (!exact && Beyond(parent, w) in t.held ==>
          var down := t.held[Beyond(parent, w)]; down in t.up && 8 * down.size == |w| && !OnWay(down, w, cidr))
  }

  lemma PlacementStep(t: Snapshot, visited: set<TrieEntry>, parent: TrieEntry?, node: TrieEntry, w: seq<bool>,
      cidr: nat)
    requires t.Linked() && Searching(t, visited, parent, w, cidr) && (|w| == 32 || |w| == 128)
    requires Beyond(parent, w) in t.held && t.held[Beyond(parent, w)] == node && node.key <= w
    requires |node.key| <= cidr <= |w|
    ensures node in t.owner && 8 * node.size == |w|
    ensures if |node.key| == cidr then Placed(t, node, true, visited + {node}, w, cidr)
            else Searching(t, visited + {node}, node, w, cidr)
  {
    SearchNext(t, visited, parent, w, cidr, node);
    if |node.key| == cidr {
      SearchEndFull(t, visited, parent, w, cidr, node);
    } else {
      SearchStep(t, visited, parent, w, cidr, node);
    }
  }

  lemma PlacedBelow(t: Snapshot, visited: set<TrieEntry>, parent: TrieEntry?, w: seq<bool>, cidr: nat)
    requires t.Linked() && Searching(t, visited, parent, w, cidr) && (|w| == 32 || |w| == 128)
    requires Beyond(parent, w) in t.held ==> !OnWay(t.held[Beyond(parent, w)], w, cidr)
    ensures Placed(t, parent, false, visited, w, cidr)
  {
    SearchEnd(t, visited, parent, w, cidr);
    if Beyond(parent, w) in t.held {
      SearchNext(t, visited, parent, w, cidr, t.held[Beyond(parent, w)]);
    }
  }

  lemma NewKeyAbsent(t: Snapshot, parent: TrieEntry?, visited: set<TrieEntry>, w: seq<bool>, cidr: nat, n: TrieEntry)
    requires t.Linked() && Placed(t, parent, false, visited, w, cidr) && (|w| == 32 || |w| == 128)
    requires cidr <= |w| && n.key == w[..cidr] && 8 * n.size == |w|
    ensures forall m :: m in t.owner ==> m.Key() != n.Key()
  {
    forall m | m in t.owner
      ensures m.Key() != n.Key()
    {
      if OnWay(m, w, cidr) {
        PathComplete(t, visited, w, cidr, m);
      }
    }
  }

  /** A node that is no longer than its common bits with w covers w. */
  lemma CoversWithin(n: TrieEntry, w: seq<bool>, m: nat)
    requires n.Spelled() && m <= |w| == 8 * n.size && Bits(n.bits)[..m] == w[..m]
    ensures |n.key| <= m ==> n.key <= w
  {
    if |n.key| <= m {
      assert n.key == Bits(n.bits)[..m][..|n.key|];
      assert w[..|n.key|] == w[..m][..|n.key|];
    }
  }

  /** The new node is a proper prefix of what the slot held. */
  lemma GoesAbove(n: TrieEntry, down: TrieEntry, w: seq<bool>, cidr: nat)
    requires n.Spelled() && down.Spelled() && 8 * down.size == 8 * n.size == |w| && !OnWay(down, w, cidr)
    requires cidr <= |w| && n.key == w[..cidr]
    requires Common(Bits(down.bits), Bits(n.bits)) >= cidr
    ensures cidr < |w| && Extends(n, Digit(Bits(down.bits)[cidr]), down)
  {
    CommonAtLeast(Bits(down.bits), Bits(n.bits), cidr);
    assert Bits(n.bits)[..cidr] == w[..cidr];
    CoversWithin(down, w, cidr);
    assert down.key[..cidr] == Bits(down.bits)[..cidr];
  }

  /** The new node and what the slot held part ways after their common bits. */
  lemma Forks(n: TrieEntry, down: TrieEntry, w: seq<bool>, cidr: nat, common: nat)
    requires n.Spelled() && down.Spelled() && 8 * down.size == 8 * n.size == |w| && !OnWay(down, w, cidr)
    requires cidr <= |w| && n.key == w[..cidr]
    requires common == Common(Bits(down.bits), Bits(n.bits)) < cidr
    ensures common < |down.key| && n.key[..common] == down.key[..common] && n.key[common] != down.key[common]
  {
    var u, v := Bits(down.bits), Bits(n.bits);
    assert n.key[..common] == v[..common] == u[..common];
    assert w[..common] == n.key[..common];
    CoversWithin(down, w, common);
  }

  /** Nodes that hang from one slot share more than the prefix of its owner. */
  lemma ShareSide(p: TrieEntry, b: nat, m: TrieEntry, n: TrieEntry)
    requires p.Spelled() && m.Spelled() && n.Spelled() && Extends(p, b, m) && Extends(p, b, n)
    ensures |p.key| < Common(Bits(m.bits), Bits(n.bits))
  {
    var u, v, k := Bits(m.bits), Bits(n.bits), |p.key|;
    assert u[..k] == p.key == v[..k];
    assert u[k] == m.key[k] && v[k] == n.key[k];
    assert u[..k + 1] == u[..k] + [u[k]];
    assert v[..k + 1] == v[..k] + [v[k]];
    CommonAtLeast(u, v, k + 1);
  }

  /** A fork at the common bits of n and down takes both of them, and fits their slot. */
  lemma ForkFits(slot: ParentIndirection, n: TrieEntry, down: TrieEntry, fork: TrieEntry)
    requires var c := |fork.key|;
             && c < |n.key| && c < |down.key| && n.key[..c] == down.key[..c] == fork.key && n.key[c] != down.key[c]
    requires fork.size == n.size == down.size && Fits(slot, n) && (slot.ChildSlot? ==> |slot.node.key| < |fork.key|)
    ensures var b := Digit(down.key[|fork.key|]);
            Extends(fork, b, down) && Extends(fork, 1 - b, n) && Fits(slot, fork)
  {
  }

  ghost predicate Sound(t: Snapshot, lists: map<Peer, seq<TrieEntry>>, routes: map<Prefix, Peer>) {
    t.Shape() && Lists(t.owner, lists) && Routed(t.owner, routes)
  }

  /** What still has to be done once n is on its peer's list. */
  ghost predicate Pending(t: Snapshot, lists: map<Peer, seq<TrieEntry>>, routes: map<Prefix, Peer>, n: TrieEntry,
      peer: Peer) {
    && t.Shape() && Lists(t.owner[n := peer], lists) && Routed(t.owner, routes)
    && n !in t.owner && n.Sized() && (forall m :: m in t.owner ==> m.Key() != n.Key())
  }

  lemma LeafSound(t: Snapshot, lists: map<Peer, seq<TrieEntry>>, routes: map<Prefix, Peer>, n: TrieEntry, peer: Peer,
      slot: ParentIndirection)
    requires Pending(t, lists, routes, n, peer) && t.IsSlot(slot) && slot !in t.held && Fits(slot, n)
    ensures Sound(WithLeaf(t, slot, n, peer), lists, routes[n.Key() := peer])
  {
    LeafKeepsShape(t, slot, n, peer);
    RoutingAssign(t.owner, routes, n, peer);
  }

  lemma NodeAboveSound(t: Snapshot, lists: map<Peer, seq<TrieEntry>>, routes: map<Prefix, Peer>, n: TrieEntry,
      peer: Peer,
                       slot: ParentIndirection, down: TrieEntry, bit: nat)
    requires Pending(t, lists, routes, n, peer) && bit < 2
    requires slot in t.held && t.held[slot] == down && Fits(slot, n) && Extends(n, bit, down)
    ensures Sound(WithNodeAbove(t, slot, n, peer, down, bit), lists, routes[n.Key() := peer])
  {
    NodeAboveKeepsShape(t, slot, n, peer, down, bit);
    RoutingAssign(t.owner, routes, n, peer);
  }

  lemma ForkSound(t: Snapshot, lists: map<Peer, seq<TrieEntry>>, routes: map<Prefix, Peer>, n: TrieEntry, peer: Peer,
                  slot: ParentIndirection, fork: TrieEntry, down: TrieEntry, bit: nat)
    requires Pending(t, lists, routes, n, peer) && fork !in t.owner && fork.Sized() && fork != n && bit < 2
    requires slot in t.held && t.held[slot] == down && Fits(slot, fork) && Extends(fork, bit, down)
    requires Extends(fork, 1 - bit, n)
    ensures Sound(WithFork(t, slot, fork, n, peer, down, bit), lists, routes[n.Key() := peer])
  {
    ForkKeepsShape(t, slot, fork, n, peer, down, bit);
    RoutingAssign(t.owner, routes, n, peer);
    RoutingPeerless(t.owner[n := peer], routes[n.Key() := peer], fork);
    ListsPeerless(t.owner[n := peer], lists, fork);
  }

  /** A list with a node appended; a peer that has no list yet gets one. */
  ghost function Pushed(lists: map<Peer, seq<TrieEntry>>, peer: Peer, n: TrieEntry): map<Peer, seq<TrieEntry>> {
    lists[peer := (if peer in lists then lists[peer] else []) + [n]]
  }

  lemma NewPending(t: Snapshot, lists: map<Peer, seq<TrieEntry>>, routes: map<Prefix, Peer>, parent: TrieEntry?,
      visited: set<TrieEntry>,
                   w: seq<bool>, n: TrieEntry, peer: Peer)
    requires Sound(t, lists, routes) && Placed(t, parent, false, visited, w, |n.key|)
    requires n !in t.owner && n.Sized() && 8 * n.size == |w| && n.key <= w
    ensures Pending(t, Pushed(lists, peer, n), routes, n, peer)
  {
    NewKeyAbsent(t, parent, visited, w, |n.key|, n);
    ListsAssign(t.owner, lists, n, peer);
  }

  /** n has no peer; it may have room for children, and everything else holds. */
  ghost predicate Vacant(t: Snapshot, lists: map<Peer, seq<TrieEntry>>, routes: map<Prefix, Peer>, n: TrieEntry) {
    && t.Linked() && t.Full(Slots(n)) && Lists(t.owner, lists) && Routed(t.owner, routes)
    && n in t.owner && t.owner[n] == null
  }

  /** The lists once n is off its owner's list, if it has one. */
  ghost function Unlisted(t: Snapshot, lists: map<Peer, seq<TrieEntry>>, n: TrieEntry): map<Peer, seq<TrieEntry>> {
    if n in t.owner && t.owner[n] != null && t.owner[n] in lists
    then lists[t.owner[n] := Remove(lists[t.owner[n]], n)]
    else lists
  }

  lemma ReleaseSound(t: Snapshot, lists: map<Peer, seq<TrieEntry>>, routes: map<Prefix, Peer>, n: TrieEntry)
    requires Sound(t, lists, routes) && n in t.owner
    ensures Vacant(WithPeer(t, n, null), Unlisted(t, lists, n), routes - {n.Key()}, n)
  {
    WithPeerKeeps(t, n, null);
    KeyUnique(t, n);
    RoutingRelease(t.owner, routes, n);
    if t.owner[n] == null {
      ListsPeerless(t.owner, lists, n);
    } else {
      ListsRelease(t.owner, lists, n, t.owner[n]);
    }
  }

  lemma AssignSound(t: Snapshot, lists: map<Peer, seq<TrieEntry>>, routes: map<Prefix, Peer>, n: TrieEntry, peer: Peer)
    requires Vacant(t, lists, routes, n)
    ensures Sound(WithPeer(t, n, peer), Pushed(lists, peer, n), routes[n.Key() := peer])
  {
    WithPeerKeeps(t, n, peer);
    ListsAssign(t.owner, lists, n, peer);
    KeyUnique(t, n);
    RoutingAssign(t.owner, routes, n, peer);
  }

  lemma ReassignSound(t: Snapshot, lists: map<Peer, seq<TrieEntry>>, routes: map<Prefix, Peer>, n: TrieEntry,
      peer: Peer)
    requires Sound(t, lists, routes) && n in t.owner
    ensures Sound(WithPeer(WithPeer(t, n, null), n, peer), Pushed(Unlisted(t, lists, n), peer, n),
      routes[n.Key() := peer])
    ensures Pushed(Unlisted(t, lists, n), peer, n).Keys == lists.Keys + {peer}
    ensures t.owner[n] != null ==> t.owner[n] in lists
  {
    ReleaseSound(t, lists, routes, n);
    AssignSound(WithPeer(t, n, null), Unlisted(t, lists, n), routes - {n.Key()}, n, peer);
    RemovedThenWritten(routes, n.Key(), peer);
  }

  ghost function Stored(t: Snapshot, slot: ParentIndirection, c: TrieEntry?): Snapshot {
    t.(held := if c == null then t.held - {slot} else t.held[slot := c])
  }

  // ----- removal

  /** A node without a peer stays only while it forks. */
  lemma ForkStays(t: Snapshot, lists: map<Peer, seq<TrieEntry>>, routes: map<Prefix, Peer>, n: TrieEntry)
    requires Vacant(t, lists, routes, n) && ChildSlot(n, 0) in t.held && ChildSlot(n, 1) in t.held
    ensures Sound(t, lists, routes)
  {
  }

  lemma LiftSound(t: Snapshot, lists: map<Peer, seq<TrieEntry>>, routes: map<Prefix, Peer>, n: TrieEntry, bit: nat)
    requires Vacant(t, lists, routes, n) && bit < 2 && ChildSlot(n, bit) in t.held && ChildSlot(n, 1 - bit) !in t.held
    ensures Sound(Lift(t, n, bit), lists, routes)
  {
    LiftKeeps(t, n, bit);
    LiftFull(t, Slots(n), n, bit);
    RoutingPeerless(t.owner, routes, n);
    ListsPeerless(t.owner, lists, n);
  }

  /** After a leaf is gone, its parent may be left with one child and no peer. */
  ghost predicate Gone(t: Snapshot, lists: map<Peer, seq<TrieEntry>>, routes: map<Prefix, Peer>,
      slot: ParentIndirection) {
    && t.Linked() && t.Full({slot}) && Lists(t.owner, lists) && Routed(t.owner, routes)
    && t.IsSlot(slot) && slot !in t.held
  }

  lemma UnhangGone(t: Snapshot, lists: map<Peer, seq<TrieEntry>>, routes: map<Prefix, Peer>, n: TrieEntry)
    requires Vacant(t, lists, routes, n) && ChildSlot(n, 0) !in t.held && ChildSlot(n, 1) !in t.held
    ensures Gone(Unhang(t, n), lists, routes, t.up[n])
  {
    UnhangKeeps(t, n);
    UnhangFull(t, n);
    RoutingPeerless(t.owner, routes, n);
    ListsPeerless(t.owner, lists, n);
  }

  lemma GoneSound(t: Snapshot, lists: map<Peer, seq<TrieEntry>>, routes: map<Prefix, Peer>, slot: ParentIndirection)
    requires Gone(t, lists, routes, slot) && (slot.ChildSlot? ==> t.owner[slot.node] != null)
    ensures Sound(t, lists, routes)
  {
  }

  lemma CollapseSound(t: Snapshot, lists: map<Peer, seq<TrieEntry>>, routes: map<Prefix, Peer>, p: TrieEntry, b: nat)
    requires Gone(t, lists, routes, ChildSlot(p, b)) && b < 2 && t.owner[p] == null
    ensures ChildSlot(p, 1 - b) in t.held && Sound(Lift(t, p, 1 - b), lists, routes)
  {
    LiftKeeps(t, p, 1 - b);
    LiftFull(t, {ChildSlot(p, b)}, p, 1 - b);
    RoutingPeerless(t.owner, routes, p);
    ListsPeerless(t.owner, lists, p);
  }

  /** The routes that do not lead to peer. */
  ghost function Without(routes: map<Prefix, Peer>, peer: Peer): map<Prefix, Peer> {
    map q | q in routes && routes[q] != peer :: routes[q]
  }

  lemma WithoutStep(routes: map<Prefix, Peer>, peer: Peer, q: Prefix)
    requires q in routes && routes[q] == peer
    ensures Without(routes - {q}, peer) == Without(routes, peer)
  {
  }

  lemma WithoutDone(t: Snapshot, lists: map<Peer, seq<TrieEntry>>, routes: map<Prefix, Peer>, peer: Peer)
    requires Sound(t, lists, routes) && (peer in lists ==> lists[peer] == [])
    ensures Without(routes, peer) == routes
  {
    forall q | q in routes
      ensures routes[q] != peer
    {
      var n :| n in t.owner && n.Key() == q && t.owner[n] == routes[q];
    }
  }

  /** The first entry of a peer's list is one of its nodes, and leaves a shorter list. */
  lemma FirstEntry(t: Snapshot, lists: map<Peer, seq<TrieEntry>>, routes: map<Prefix, Peer>, peer: Peer)
    requires Sound(t, lists, routes) && peer in lists && lists[peer] != []
    ensures var n := lists[peer][0];
            && n in t.owner && t.owner[n] == peer && n.Key() in routes && routes[n.Key()] == peer
            && Unlisted(t, lists, n) == lists[peer := lists[peer][1..]]
  {
    assert lists[peer][0] in lists[peer];
  }

  /** Below every node there is one that has a peer. */
  lemma {:induction false} PeerBelow(t: Snapshot, n: TrieEntry) returns (m: TrieEntry)
    requires t.Shape() && n in t.owner
    ensures m in t.owner && t.owner[m] != null && n.key <= m.key
    decreases 8 * n.size - |n.key|
  {
    m := n;
    if t.owner[n] == null {
      var slot := ChildSlot(n, 0);
      assert slot in t.held && t.held[slot] in t.up;
      m := PeerBelow(t, t.held[slot]);
    }
  }

  /** Without routes there are no nodes: removing every peer empties both tries. */
  lemma NoRoutesNoNodes(t: Snapshot, lists: map<Peer, seq<TrieEntry>>)
    requires Sound(t, lists, map[])
    ensures t.owner.Keys == {} && t.held.Keys == {}
  {
    assert forall slot :: slot in t.held.Keys ==> t.held[slot] in t.up.Keys;
    if t.owner.Keys != {} {
      var n :| n in t.owner.Keys;
      var m := PeerBelow(t, n);
      assert false;
    }
  }

  ghost predicate InList(l: seq<TrieEntry>, q: Prefix) {
    exists i :: 0 <= i < |l| && l[i].Key() == q
  }

  /** A peer's entries name exactly the prefixes routed to it. */
  lemma EntriesExact(t: Snapshot, lists: map<Peer, seq<TrieEntry>>, routes: map<Prefix, Peer>, peer: Peer, q: Prefix)
    requires Sound(t, lists, routes) && peer in lists
    ensures q in routes && routes[q] == peer <==> InList(lists[peer], q)
  {
    var l := lists[peer];
    if q in routes && routes[q] == peer {
      var n :| n in t.owner && n.Key() == q && t.owner[n] == routes[q];
      assert n in l;
      var i :| 0 <= i < |l| && l[i] == n;
      assert InList(l, q);
    }
    if InList(l, q) {
      var i :| 0 <= i < |l| && l[i].Key() == q;
      assert l[i] in l;
    }
  }

  lemma Entry(owners: map<TrieEntry, Peer?>, lists: map<Peer, seq<TrieEntry>>, peer: Peer, i: nat)
    requires Lists(owners, lists) && peer in lists && i < |lists[peer]|
    ensures lists[peer][i] in owners && owners[lists[peer][i]] == peer
    ensures forall j :: 0 <= j < |lists[peer]| && lists[peer][i] == lists[peer][j] ==> i == j
  {
    assert lists[peer][i] in lists[peer];
  }

  /** No prefix is listed twice. */
  lemma EntriesDistinct(t: Snapshot, lists: map<Peer, seq<TrieEntry>>, peer: Peer, i: nat, j: nat)
    requires t.Linked() && Lists(t.owner, lists) && peer in lists && i < j < |lists[peer]|
    ensures lists[peer][i].Key() != lists[peer][j].Key()
  {
    var m, n := lists[peer][i], lists[peer][j];
    Entry(t.owner, lists, peer, i);
    Entry(t.owner, lists, peer, j);
    if m.Key() == n.Key() {
      KeysUnique(t, m, n);
    }
  }
}
