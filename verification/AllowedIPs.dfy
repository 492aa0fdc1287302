/** The routing table: both tries, updated in place through parent indirections,
    with one list of entries per peer. */
module AllowedIPs {
  import opened Bitwise
  import opened AddressBits
  import opened Trie
  import opened Routing

  /** The slot holds this node, or nothing. */
  ghost predicate HeldAt(held: map<ParentIndirection, TrieEntry>, slot: ParentIndirection, c: TrieEntry?) {
    if c == null then slot !in held else slot in held && held[slot] == c
  }

  class Table {
    var IPv4: TrieEntry?
    var IPv6: TrieEntry?
    ghost var nodes: set<TrieEntry>
    ghost var lists: map<Peer, seq<TrieEntry>>
    ghost var view: Snapshot
    ghost var routes: map<Prefix, Peer>

    function Root(v6: bool): TrieEntry?
      reads this
    {
      if v6 then IPv6 else IPv4
    }

    /** The snapshot records this content for this slot. */
    ghost predicate Shows(slot: ParentIndirection, c: TrieEntry?)
      reads this`view
    {
      HeldAt(view.held, slot, c)
    }

    /** The snapshot shows the nodes' fields as they are. */
    ghost predicate Tied()
      reads this`IPv4, this`IPv6, this`view, this`nodes, nodes
    {
      && nodes == view.up.Keys == view.owner.Keys
      && Shows(RootSlot(false), IPv4) && Shows(RootSlot(true), IPv6)
      && (forall n :: n in nodes ==> |n.child| == 2 && view.up[n] == n.parent && view.owner[n] == n.peer)
      && (forall n :: n in nodes ==> n.inPeerEntries == (n.peer != null))
      && (forall n, b :: n in nodes && 0 <= b < 2 ==> Shows(ChildSlot(n, b), n.child[b]))
    }

    /** Every node's bytes are its prefix, padded with zeros. */
    ghost predicate Clean()
      reads this`nodes
    {
      && (forall n {:trigger n.Spelled()} :: n in nodes ==> n.Spelled())
      && (forall n {:trigger n.Masked()} :: n in nodes ==> n.Masked())
    }

    /** The recorded lists are the peers' lists as they are. */
    ghost predicate ListsTied()
      reads this`lists, lists.Keys
    {
      forall p :: p in lists ==> p.trieEntries == lists[p]
    }

    /** The ghost state shows the objects as they are. */
    ghost predicate Real()
      reads this`IPv4, this`IPv6, this`view, this`nodes, this`lists, nodes, lists.Keys
    {
      Tied() && ListsTied() && Clean()
    }

    ghost predicate Valid()
      reads this, nodes, lists.Keys
    {
      Real() && Sound(view, lists, routes)
    }

    constructor ()
      ensures Valid() && routes == map[] && nodes == {} && lists == map[]
      ensures IPv4 == null && IPv6 == null
    {
      IPv4 := null;
      IPv6 := null;
      nodes := {};
      lists := map[];
      view := Snapshot(map[], map[], map[]);
      routes := map[];
    }

    /** What the search reads from a child slot. */
    lemma ChildView(n: TrieEntry, w: seq<bool>)
      requires Tied() && view.Linked() && n in nodes && |n.key| < |w| == 8 * n.size
      ensures AtSlot(view, n, n.child[Digit(w[|n.key|])], w)
    {
      assert Shows(Beyond(n, w), n.child[Digit(w[|n.key|])]);
    }

    lemma RootView(w: seq<bool>)
      requires Tied() && view.Linked() && (|w| == 32 || |w| == 128)
      ensures AtSlot(view, null, Root(|w| == 128), w)
    {
    }

    /** The descent has come to a slot that holds this node, or none, with this the best so far. */
    ghost predicate Walking(ip: Address, visited: set<TrieEntry>, parent: TrieEntry?, node: TrieEntry?,
        best: TrieEntry?, found: Peer?)
      reads this`view
    {
      LookingUp(view, visited, parent, ip, best, found) && AtSlot(view, parent, node, Bits(ip))
    }

    /** A node that can be compared with the address. */
    ghost predicate Comparable(node: TrieEntry, ip: Address)
      reads this`nodes
    {
      node in nodes && node.Spelled() && node.size == |ip|
    }

    lemma WalkStarts(ip: Address)
      requires Tied() && Clean() && view.Linked()
      ensures Walking(ip, {}, null, Root(|ip| == 16), null, null)
      ensures Root(|ip| == 16) != null ==> Comparable(Root(|ip| == 16), ip)
    {
      hide LookingUp, Snapshot.Linked, Bits;
      LookupStarts(view, ip);
      RootView(Bits(ip));
    }

    /** Takes the peer of a node on the way, if it has one, and goes on to the child on the way. */
    method Descend(here: TrieEntry, ip: Address, ghost visited: set<TrieEntry>, ghost parent: TrieEntry?,
        ghost best0: TrieEntry?, found0: Peer?)
      returns (node: TrieEntry?, found: Peer?, ghost best: TrieEntry?, done: bool)
      requires Tied() && Clean() && view.Linked() && Routed(view.owner, routes)
      requires Walking(ip, visited, parent, here, best0, found0) && Comparable(here, ip) && here.key <= Bits(ip)
      ensures done ==> IsLongestMatch(routes, ip, found)
      ensures !done ==> Walking(ip, visited + {here}, here, node, best, found)
      ensures !done && node != null ==> Comparable(node, ip) && |here.key| < |node.key|
    {
      found, best, node := found0, best0, null;
      if here.peer != null {
        found, best := here.peer, here;
      }
      LookupStep(view, routes, visited, parent, here, ip, best0, found0, best, found);
      done := here.bitAtByte == |ip|;
      if !done {
        ChildView(here, Bits(ip));
        node := here.child[here.Chosen(ip)];
      }
    }

    method LookupFrom(start: TrieEntry?, ip: Address) returns (found: Peer?)
      requires Tied() && Clean()
      requires view.Linked() && Routed(view.owner, routes) && start == Root(|ip| == 16)
      ensures IsLongestMatch(routes, ip, found)
    {
      hide Walking, IsLongestMatch;
      ghost var visited: set<TrieEntry>, parent: TrieEntry?, best: TrieEntry? := {}, null, null;
      WalkStarts(ip);
      found := null;
      var node := start;
      while node != null && node.Matches(ip)
        invariant Walking(ip, visited, parent, node, best, found) && (node != null ==> Comparable(node, ip))
        decreases if node == null then 0 else 8 * |ip| + 1 - |node.key|
      {
        var here: TrieEntry := node;
        var done;
        node, found, best, done := Descend(here, ip, visited, parent, best, found);
        if done {
          return;
        }
        parent := here;
        visited := visited + {here};
      }
      WalkEnds(ip, visited, parent, node, best, found);
    }

    lemma WalkEnds(ip: Address, visited: set<TrieEntry>, parent: TrieEntry?, node: TrieEntry?, best: TrieEntry?,
        found: Peer?)
      requires view.Linked() && Routed(view.owner, routes) && Walking(ip, visited, parent, node, best, found)
      requires node != null ==> Comparable(node, ip) && !node.Matches(ip)
      ensures IsLongestMatch(routes, ip, found)
    {
      LookupEnd(view, routes, visited, parent, node, ip, best, found);
    }

    method Lookup(ip: Address) returns (found: Peer?)
      requires Valid()
      ensures IsLongestMatch(routes, ip, found)
    {
      if |ip| == 16 {
        found := LookupFrom(IPv6, ip);
      } else {
        found := LookupFrom(IPv4, ip);
      }
    }

    method NodePlacement(start: TrieEntry?, ip: Address, cidr: nat)
      returns (parent: TrieEntry?, exact: bool, ghost visited: set<TrieEntry>)
      requires Tied() && Clean()
      requires view.Linked() && cidr <= 8 * |ip| && start == Root(|ip| == 16)
      ensures Placed(view, parent, exact, visited, Bits(ip), cidr)
    {
      ghost var w := Bits(ip);
      RootView(w);
      var node := start;
      parent, exact, visited := null, false, {};
      while node != null && node.cidr <= cidr && node.Matches(ip)
        invariant !exact && Searching(view, visited, parent, w, cidr)
        invariant AtSlot(view, parent, node, w)
        decreases if node == null then 0 else 8 * |ip| + 1 - |node.key|
      {
        var here: TrieEntry := node;
        PlacementStep(view, visited, parent, here, w, cidr);
        parent := here;
        visited := visited + {here};
        if here.cidr == cidr {
          exact := true;
          return;
        }
        ChildView(here, w);
        node := here.child[here.Chosen(ip)];
      }
      PlacedBelow(view, visited, parent, w, cidr);
    }

    // ----- single writes, and what they do to the snapshot

    method StoreRoot(v6: bool, c: TrieEntry?)
      requires Tied()
      modifies this`IPv4, this`IPv6, this`view
      ensures Tied() && nodes == old(nodes) && view == Stored(old(view), RootSlot(v6), c)
      ensures routes == old(routes) && lists == old(lists)
    {
      if v6 {
        IPv6 := c;
      } else {
        IPv4 := c;
      }
      view := Stored(view, RootSlot(v6), c);
      forall n, d | n in nodes && 0 <= d < 2
        ensures Shows(ChildSlot(n, d), n.child[d])
      {
        assert old(Shows(ChildSlot(n, d), n.child[d]));
      }
    }

    method StoreChild(p: TrieEntry, b: nat, c: TrieEntry?)
      requires Tied() && p in nodes && b < 2
      modifies this`view, p`child
      ensures Tied() && nodes == old(nodes) && view == Stored(old(view), ChildSlot(p, b), c)
      ensures routes == old(routes) && lists == old(lists)
    {
      p.child := p.child[b := c];
      view := Stored(view, ChildSlot(p, b), c);
      forall n, d | n in nodes && 0 <= d < 2
        ensures Shows(ChildSlot(n, d), n.child[d])
      {
        assert old(Shows(ChildSlot(n, d), n.child[d]));
      }
    }

    /** Writes the slot that a parent indirection names. */
    method StoreSlot(slot: ParentIndirection, c: TrieEntry?)
      requires Tied() && view.IsSlot(slot)
      modifies this`IPv4, this`IPv6, this`view, (if slot.ChildSlot? then {slot.node} else {})`child
      ensures Tied() && nodes == old(nodes) && view == Stored(old(view), slot, c)
      ensures routes == old(routes) && lists == old(lists)
    {
      match slot
      case RootSlot(v6) => StoreRoot(v6, c);
      case ChildSlot(p, b) => StoreChild(p, b, c);
    }

    method SetParent(n: TrieEntry, slot: ParentIndirection)
      requires Tied() && n in nodes
      modifies this`view, n`parent
      ensures Tied() && nodes == old(nodes) && view == old(view).(up := old(view).up[n := slot])
      ensures routes == old(routes) && lists == old(lists)
    {
      hide HeldAt;
      n.parent := slot;
      view := view.(up := view.up[n := slot]);
      forall m | m in nodes
        ensures |m.child| == 2 && view.up[m] == m.parent && view.owner[m] == m.peer
        ensures m.inPeerEntries == (m.peer != null)
      {
        assert old(|m.child| == 2 && view.up[m] == m.parent && view.owner[m] == m.peer);
      }
      forall m, d | m in nodes && 0 <= d < 2
        ensures Shows(ChildSlot(m, d), m.child[d])
      {
        assert old(Shows(ChildSlot(m, d), m.child[d]));
      }
    }

    method WriteOwner(n: TrieEntry, peer: Peer?)
      requires Tied() && n in nodes
      modifies this`view, n`peer, n`inPeerEntries
      ensures n.peer == peer && Tied() && view == WithPeer(old(view), n, peer)
      ensures nodes == old(nodes) && routes == old(routes) && lists == old(lists)
    {
      hide HeldAt;
      n.peer := peer;
      n.inPeerEntries := peer != null;
      view := WithPeer(view, n, peer);
      forall m | m in nodes
        ensures |m.child| == 2 && view.up[m] == m.parent && view.owner[m] == m.peer
        ensures m.inPeerEntries == (m.peer != null)
      {
        assert old(|m.child| == 2 && view.up[m] == m.parent && view.owner[m] == m.peer);
      }
      forall m, d | m in nodes && 0 <= d < 2
        ensures Shows(ChildSlot(m, d), m.child[d])
      {
        assert old(Shows(ChildSlot(m, d), m.child[d]));
      }
    }

    method SetOwner(n: TrieEntry, peer: Peer?)
      requires Real() && n in nodes
      modifies this`view, n`peer, n`inPeerEntries
      ensures n.peer == peer && Real() && view == WithPeer(old(view), n, peer)
      ensures nodes == old(nodes) && routes == old(routes) && lists == old(lists)
    {
      WriteOwner(n, peer);
    }

    method PushBack(peer: Peer, n: TrieEntry)
      requires Real() && (peer in lists || peer.trieEntries == [])
      modifies this`lists, peer
      ensures Real() && lists == Pushed(old(lists), peer, n)
      ensures view == old(view) && nodes == old(nodes) && routes == old(routes)
    {
      peer.trieEntries := peer.trieEntries + [n];
      lists := Pushed(lists, peer, n);
    }

    method RemoveElement(peer: Peer, n: TrieEntry)
      requires Real() && peer in lists
      modifies this`lists, peer
      ensures Real() && lists == old(lists)[peer := Remove(old(lists)[peer], n)]
      ensures view == old(view) && nodes == old(nodes) && routes == old(routes)
    {
      peer.trieEntries := Remove(peer.trieEntries, n);
      lists := lists[peer := Remove(lists[peer], n)];
    }

    ghost method Admit(n: TrieEntry, routes': map<Prefix, Peer>)
      requires Real() && view.Sorted() && n !in nodes && n.Spelled() && n.Masked()
      requires n.child == [null, null] && n.parent == Detached && n.inPeerEntries == (n.peer != null)
      modifies this`nodes, this`view, this`routes
      ensures Real() && view == Admitted(old(view), n, n.peer) && view.Sorted()
      ensures nodes == old(nodes) + {n} && routes == routes' && lists == old(lists)
    {
      Record(n);
      routes := routes';
    }

    ghost method Record(n: TrieEntry)
      requires Tied() && view.Sorted() && n !in nodes
      requires n.child == [null, null] && n.parent == Detached && n.inPeerEntries == (n.peer != null)
      modifies this`nodes, this`view
      ensures Tied() && view == Admitted(old(view), n, n.peer) && view.Sorted() && nodes == old(nodes) + {n}
    {
      nodes := nodes + {n};
      view := Admitted(view, n, n.peer);
      forall m, d | m in nodes && 0 <= d < 2
        ensures Shows(ChildSlot(m, d), m.child[d])
      {
        if m != n {
          assert old(Shows(ChildSlot(m, d), m.child[d]));
        }
      }
    }

    ghost method Expel(n: TrieEntry)
      requires Real() && n in nodes
      modifies this`nodes, this`view
      ensures nodes == old(nodes) - {n} && Real()
      ensures routes == old(routes) && lists == old(lists)
      ensures view == Snapshot(old(view).held - Slots(n), old(view).up - {n}, old(view).owner - {n})
    {
      nodes := nodes - {n};
      view := Snapshot(view.held - Slots(n), view.up - {n}, view.owner - {n});
      forall m, d | m in nodes && 0 <= d < 2
        ensures Shows(ChildSlot(m, d), m.child[d])
      {
        assert old(Shows(ChildSlot(m, d), m.child[d]));
      }
    }

    /** Hangs n from a slot: the slot and n's parent indirection name each other. */
    method Hang(slot: ParentIndirection, n: TrieEntry)
      requires Real() && n in nodes && view.IsSlot(slot)
      modifies this`IPv4, this`IPv6, this`view, n`parent, (if slot.ChildSlot? then {slot.node} else {})`child
      ensures Real() && view == Hung(old(view), slot, n)
      ensures routes == old(routes) && lists == old(lists)
    {
      SetParent(n, slot);
      StoreSlot(slot, n);
    }

    // ----- insert

    method PlaceLeaf(slot: ParentIndirection, n: TrieEntry, peer: Peer, ghost routes': map<Prefix, Peer>)
      requires Real() && view.Sorted() && view.IsSlot(slot) && Listed(n, peer)
      modifies this`IPv4, this`IPv6, this`view, this`nodes, this`routes, n`parent,
        (if slot.ChildSlot? then {slot.node} else {})`child
      ensures Real() && view == WithLeaf(old(view), slot, n, peer)
      ensures nodes == old(nodes) + {n} && routes == routes' && lists == old(lists)
    {
      Admit(n, routes');
      Hang(slot, n);
    }

    method PlaceAbove(slot: ParentIndirection, n: TrieEntry, peer: Peer, down: TrieEntry, bit: nat,
        ghost routes': map<Prefix, Peer>)
      requires Real() && view.Sorted() && view.IsSlot(slot) && down in nodes && bit < 2 && Listed(n, peer)
      modifies this`IPv4, this`IPv6, this`view, this`nodes, this`routes, n`parent, n`child, down`parent,
        (if slot.ChildSlot? then {slot.node} else {})`child
      ensures Real() && view == WithNodeAbove(old(view), slot, n, peer, down, bit)
      ensures nodes == old(nodes) + {n} && routes == routes' && lists == old(lists)
    {
      Admit(n, routes');
      Hang(ChildSlot(n, bit), down);
      Hang(slot, n);
    }

    method PlaceFork(slot: ParentIndirection, fork: TrieEntry, n: TrieEntry, peer: Peer, down: TrieEntry, bit: nat,
        ghost routes': map<Prefix, Peer>)
      requires Real() && view.Sorted() && view.IsSlot(slot) && down in nodes && bit < 2 && Listed(n, peer)
      requires fork !in nodes && fork.child == [null, null] && fork.parent == Detached && fork.peer == null
      requires !fork.inPeerEntries
      requires fork != n && fork.Spelled() && fork.Masked()
      modifies this`IPv4, this`IPv6, this`view, this`nodes, this`routes, n`parent, fork`parent, fork`child,
        down`parent, (if slot.ChildSlot? then {slot.node} else {})`child
      ensures Real() && view == WithFork(old(view), slot, fork, n, peer, down, bit)
      ensures nodes == old(nodes) + {n} + {fork} && routes == routes' && lists == old(lists)
    {
      Admit(n, routes');
      Admit(fork, routes');
      Hang(ChildSlot(fork, bit), down);
      Hang(ChildSlot(fork, 1 - bit), n);
      Hang(slot, fork);
    }

    /** A node built for a peer and put on the peer's list, hanging nowhere yet. */
    ghost predicate Listed(n: TrieEntry, peer: Peer)
      reads this`nodes, n
    {
      && n !in nodes && n.Spelled() && n.Masked()
      && n.child == [null, null] && n.parent == Detached && n.peer == peer && n.inPeerEntries
    }

    method NewListed(ip: Address, cidr: nat, peer: Peer) returns (n: TrieEntry)
      requires Real() && cidr <= 8 * |ip| && (peer in lists || peer.trieEntries == [])
      modifies this`lists, peer
      ensures fresh(n) && n.key == Bits(ip)[..cidr] && n.size == |ip| && Listed(n, peer)
      ensures Real() && lists == Pushed(old(lists), peer, n)
      ensures view == old(view) && nodes == old(nodes) && routes == old(routes)
    {
      n := new TrieEntry(ip, cidr, peer);
      n.inPeerEntries := true;
      PushBack(peer, n);
    }

    method InsertLeaf(slot: ParentIndirection, n: TrieEntry, peer: Peer)
      requires Real() && Listed(n, peer) && Pending(view, lists, routes, n, peer)
      requires view.IsSlot(slot) && slot !in view.held && Fits(slot, n)
      modifies this`IPv4, this`IPv6, this`view, this`nodes, this`routes, n`parent,
        (if slot.ChildSlot? then {slot.node} else {})`child
      ensures Valid() && nodes == old(nodes) + {n} && routes == old(routes)[n.Key() := peer] && lists == old(lists)
    {
      LeafSound(view, lists, routes, n, peer, slot);
      PlaceLeaf(slot, n, peer, routes[n.Key() := peer]);
    }

    method InsertAbove(slot: ParentIndirection, n: TrieEntry, peer: Peer, down: TrieEntry, bit: nat)
      requires Real() && Listed(n, peer) && Pending(view, lists, routes, n, peer) && bit < 2
      requires slot in view.held && view.held[slot] == down && Fits(slot, n) && Extends(n, bit, down)
      modifies this`IPv4, this`IPv6, this`view, this`nodes, this`routes, n`parent, n`child, down`parent,
        (if slot.ChildSlot? then {slot.node} else {})`child
      ensures Valid() && nodes == old(nodes) + {n} && routes == old(routes)[n.Key() := peer] && lists == old(lists)
    {
      NodeAboveSound(view, lists, routes, n, peer, slot, down, bit);
      PlaceAbove(slot, n, peer, down, bit, routes[n.Key() := peer]);
    }

    method InsertFork(slot: ParentIndirection, fork: TrieEntry, n: TrieEntry, peer: Peer, down: TrieEntry, bit: nat)
      requires Real() && Listed(n, peer) && Pending(view, lists, routes, n, peer) && bit < 2
      requires fork !in nodes && fork.child == [null, null] && fork.parent == Detached && fork.peer == null
      requires !fork.inPeerEntries
      requires fork != n && fork.Spelled() && fork.Masked()
      requires slot in view.held && view.held[slot] == down && Fits(slot, fork) && Extends(fork, bit, down)
      requires Extends(fork, 1 - bit, n)
      modifies this`IPv4, this`IPv6, this`view, this`nodes, this`routes, n`parent, fork`parent, fork`child,
        down`parent, (if slot.ChildSlot? then {slot.node} else {})`child
      ensures Valid() && nodes == old(nodes) + {n} + {fork} && routes == old(routes)[n.Key() := peer]
      ensures lists == old(lists)
    {
      ForkSound(view, lists, routes, n, peer, slot, fork, down, bit);
      PlaceFork(slot, fork, n, peer, down, bit, routes[n.Key() := peer]);
    }

    /** The slot where the search for the new node ended, and what it holds. */
    method SlotBelow(node: TrieEntry?, newNode: TrieEntry, ghost visited: set<TrieEntry>, ghost w: seq<bool>)
      returns (slot: ParentIndirection, down: TrieEntry?)
      requires Tied() && Clean() && view.Linked() && newNode.Spelled() && |w| == 8 * newNode.size && newNode.key <= w
      requires Placed(view, node, false, visited, w, newNode.cidr)
      ensures view.IsSlot(slot) && Fits(slot, newNode) && Shows(slot, down)
      ensures down != null ==>
        down in nodes && down.Spelled() && down.size == newNode.size && !OnWay(down, w, newNode.cidr)
      ensures slot.ChildSlot? ==> slot.node in nodes && slot.node.Spelled()
    {
      if node == null {
        slot := RootSlot(|newNode.bits| == 16);
        down := Root(|newNode.bits| == 16);
      } else {
        assert node.Spelled();
        var bit := node.Chosen(newNode.bits);
        slot := ChildSlot(node, bit);
        down := node.child[bit];
        assert Shows(slot, down);
      }
      assert slot == Beyond(node, w);
      if down != null {
        assert down.Spelled();
      }
    }

    /** The peerless node at which a new node and what its slot held part ways. */
    method NewFork(slot: ParentIndirection, newNode: TrieEntry, down: TrieEntry, common: nat, ghost w: seq<bool>)
      returns (fork: TrieEntry, bit: nat)
      requires newNode.Spelled() && down.Spelled() && Fits(slot, newNode) && Fits(slot, down)
      requires (slot.ChildSlot? ==> slot.node.Spelled())
      requires 8 * down.size == 8 * newNode.size == |w| && newNode.key <= w && !OnWay(down, w, newNode.cidr)
      requires common == Common(Bits(down.bits), Bits(newNode.bits)) < newNode.cidr
      ensures fresh(fork) && fork.child == [null, null] && fork.parent == Detached && fork.peer == null
      ensures !fork.inPeerEntries
      ensures fork.Spelled() && fork.Masked() && bit < 2
      ensures Fits(slot, fork) && Extends(fork, bit, down) && Extends(fork, 1 - bit, newNode)
    {
      Forks(newNode, down, w, newNode.cidr, common);
      if slot.ChildSlot? {
        ShareSide(slot.node, slot.bit, down, newNode);
      }
      fork := new TrieEntry(newNode.bits, common, null);
      bit := fork.Chosen(down.bits);
      assert fork.key == newNode.key[..common];
      ForkFits(slot, newNode, down, fork);
    }

    /** Puts a node, already on its peer's list, in the place of what a slot holds. */
    method InsertOver(slot: ParentIndirection, newNode: TrieEntry, peer: Peer, down: TrieEntry, ghost w: seq<bool>)
      returns (ghost fork: TrieEntry?)
      requires Real() && Listed(newNode, peer) && Pending(view, lists, routes, newNode, peer)
      requires slot in view.held && view.held[slot] == down && Fits(slot, newNode)
      requires (slot.ChildSlot? ==> slot.node.Spelled())
      requires down.Spelled() && 8 * down.size == 8 * newNode.size == |w| && newNode.key <= w
      requires !OnWay(down, w, newNode.cidr)
      modifies this`IPv4, this`IPv6, this`view, this`nodes, this`routes, newNode`parent, newNode`child, down`parent,
        (if slot.ChildSlot? then {slot.node} else {})`child
      ensures Valid()
      ensures fork == null ==> nodes == old(nodes) + {newNode}
      ensures fork != null ==> fresh(fork) && nodes == old(nodes) + {newNode} + {fork}
      ensures routes == old(routes)[newNode.Key() := peer] && lists == old(lists)
    {
      var common := CommonBits(down.bits, newNode.bits);
      if newNode.cidr <= common {
        GoesAbove(newNode, down, w, newNode.cidr);
        var bit := newNode.Chosen(down.bits);
        fork := null;
        InsertAbove(slot, newNode, peer, down, bit);
      } else {
        fork := ForkOver(slot, newNode, peer, down, common, w);
      }
    }

    method ForkOver(slot: ParentIndirection, newNode: TrieEntry, peer: Peer, down: TrieEntry, common: nat,
        ghost w: seq<bool>)
      returns (ghost fork: TrieEntry)
      requires Real() && Listed(newNode, peer) && Pending(view, lists, routes, newNode, peer)
      requires slot in view.held && view.held[slot] == down && Fits(slot, newNode)
      requires (slot.ChildSlot? ==> slot.node.Spelled())
      requires down.Spelled() && 8 * down.size == 8 * newNode.size == |w| && newNode.key <= w
      requires !OnWay(down, w, newNode.cidr)
      requires common == Common(Bits(down.bits), Bits(newNode.bits)) < newNode.cidr
      modifies this`IPv4, this`IPv6, this`view, this`nodes, this`routes, newNode`parent, newNode`child, down`parent,
        (if slot.ChildSlot? then {slot.node} else {})`child
      ensures Valid() && fresh(fork) && nodes == old(nodes) + {newNode} + {fork}
      ensures routes == old(routes)[newNode.Key() := peer] && lists == old(lists)
    {
      var between, bit := NewFork(slot, newNode, down, common, w);
      fork := between;
      InsertFork(slot, between, newNode, peer, down, bit);
    }

    /** Takes a node off its peer's list, if it is on one, and its peer off the node. */
    method Release(node: TrieEntry, ghost routes': map<Prefix, Peer>)
      requires Real() && node in nodes && (node.peer != null ==> node.peer in lists)
      modifies this`view, this`lists, this`routes, node`peer, node`inPeerEntries, node.peer
      ensures Real() && view == WithPeer(old(view), node, null) && lists == Unlisted(old(view), old(lists), node)
      ensures nodes == old(nodes) && routes == routes' && node.peer == null
    {
      routes := routes';
      if node.inPeerEntries {
        RemoveElement(node.peer, node);
      }
      SetOwner(node, null);
    }

    /** Gives a peerless node to a peer. */
    method Assign(node: TrieEntry, peer: Peer)
      requires Real() && node in nodes && (peer in lists || peer.trieEntries == [])
      modifies this`view, this`lists, node`peer, node`inPeerEntries, peer
      ensures Real() && view == WithPeer(old(view), node, peer) && lists == Pushed(old(lists), peer, node)
      ensures nodes == old(nodes) && routes == old(routes)
    {
      SetOwner(node, peer);
      PushBack(peer, node);
    }

    method Reassign(node: TrieEntry, peer: Peer, ghost routes': map<Prefix, Peer>)
      requires Real() && node in nodes && (node.peer != null ==> node.peer in lists)
      requires (peer in lists || peer.trieEntries == [])
      modifies this`view, this`lists, this`routes, node`peer, node`inPeerEntries, node.peer, peer
      ensures Real() && view == WithPeer(WithPeer(old(view), node, null), node, peer)
      ensures lists == Pushed(Unlisted(old(view), old(lists), node), peer, node)
      ensures nodes == old(nodes) && routes == routes'
    {
      Release(node, routes');
      Assign(node, peer);
    }

    /** An exact match changes hands. */
    method InsertExact(node: TrieEntry, peer: Peer)
      requires Valid() && node in nodes && (peer in lists || peer.trieEntries == [])
      modifies this`view, this`lists, this`routes, node`peer, node`inPeerEntries, node.peer, peer
      ensures Valid() && nodes == old(nodes) && lists.Keys == old(lists).Keys + {peer}
      ensures routes == old(routes)[node.Key() := peer]
    {
      ReassignSound(view, lists, routes, node, peer);
      Reassign(node, peer, routes[node.Key() := peer]);
    }

    /** Gives the node found for a prefix to a peer. */
    method InsertOnto(node: TrieEntry?, ip: Address, cidr: nat, peer: Peer, ghost visited: set<TrieEntry>)
      requires Valid() && cidr <= 8 * |ip| && (peer in lists || peer.trieEntries == [])
      requires Placed(view, node, true, visited, Bits(ip), cidr)
      modifies this, nodes, lists.Keys, peer
      ensures Valid() && nodes == old(nodes) && lists.Keys == old(lists).Keys + {peer}
      ensures routes == old(routes)[Prefix(|ip| == 16, Bits(ip)[..cidr]) := peer]
    {
      assert node.Key() == Prefix(|ip| == 16, Bits(ip)[..cidr]);
      InsertExact(node, peer);
    }

    /** Hangs a node, already on its peer's list, from the slot where its search ended. */
    method InsertBelow(node: TrieEntry?, newNode: TrieEntry, peer: Peer, ghost visited: set<TrieEntry>,
        ghost w: seq<bool>)
      returns (ghost fork: TrieEntry?)
      requires Real() && Listed(newNode, peer) && Pending(view, lists, routes, newNode, peer)
      requires |w| == 8 * newNode.size && newNode.key <= w && Placed(view, node, false, visited, w, newNode.cidr)
      modifies this`IPv4, this`IPv6, this`view, this`nodes, this`routes, newNode`parent, newNode`child, nodes`parent,
        nodes`child
      ensures Valid()
      ensures fork == null ==> nodes == old(nodes) + {newNode}
      ensures fork != null ==> fresh(fork) && nodes == old(nodes) + {newNode} + {fork}
      ensures routes == old(routes)[newNode.Key() := peer] && lists == old(lists)
    {
      assert view.Linked();
      hide Sound, Pending, Placed;
      var slot, down := SlotBelow(node, newNode, visited, w);
      if down == null {
        fork := null;
        InsertLeaf(slot, newNode, peer);
      } else {
        fork := InsertOver(slot, newNode, peer, down, w);
      }
    }

    /** Inserts a prefix that has no node yet. */
    method InsertNew(node: TrieEntry?, ip: Address, cidr: nat, peer: Peer, ghost visited: set<TrieEntry>)
      returns (newNode: TrieEntry, ghost fork: TrieEntry?)
      requires Valid() && cidr <= 8 * |ip| && (peer in lists || peer.trieEntries == [])
      requires Placed(view, node, false, visited, Bits(ip), cidr)
      modifies this, nodes, peer
      ensures Valid() && lists.Keys == old(lists).Keys + {peer}
      ensures fresh(newNode) && (fork == null ==> nodes == old(nodes) + {newNode})
      ensures fork != null ==> fresh(fork) && nodes == old(nodes) + {newNode} + {fork}
      ensures routes == old(routes)[Prefix(|ip| == 16, Bits(ip)[..cidr]) := peer]
    {
      hide Sound, Placed, Pending;
      ghost var lists0 := lists;
      newNode := NewListed(ip, cidr, peer);
      NewPending(view, lists0, routes, node, visited, Bits(ip), newNode, peer);
      fork := InsertBelow(node, newNode, peer, visited, Bits(ip));
    }

    method Insert(ip: Address, cidr: nat, peer: Peer) returns (ghost added: TrieEntry?, ghost fork: TrieEntry?)
      requires Valid() && cidr <= 8 * |ip| && (peer in lists || peer.trieEntries == [])
      modifies this, nodes, lists.Keys, peer
      ensures Valid() && lists.Keys == old(lists).Keys + {peer}
      ensures added == null ==> nodes == old(nodes)
      ensures added != null && fork == null ==> fresh(added) && nodes == old(nodes) + {added}
      ensures added != null && fork != null ==> fresh(added) && fresh(fork) && nodes == old(nodes) + {added} + {fork}
      ensures routes == old(routes)[Prefix(|ip| == 16, Bits(ip)[..cidr]) := peer]
    {
      assert view.Linked();
      hide Sound, Placed;
      var node, exact, visited := NodePlacement(Root(|ip| == 16), ip, cidr);
      if exact {
        added, fork := null, null;
        InsertOnto(node, ip, cidr, peer, visited);
      } else {
        added, fork := InsertNew(node, ip, cidr, peer, visited);
      }
    }

    // ----- removal

    method ZeroizePointers(n: TrieEntry)
      requires Real() && n !in nodes
      modifies n`peer, n`child, n`parent
      ensures Real()
    {
      n.peer := null;
      n.child := [null, null];
      n.parent := Detached;
    }

    /** Hangs a node's only child from the node's own slot, and takes the node out. */
    method LiftChild(n: TrieEntry, bit: nat, child: TrieEntry)
      requires Real() && n in nodes && bit < 2 && n.child[bit] == child && child in nodes && view.IsSlot(n.parent)
      modifies this`IPv4, this`IPv6, this`view, this`nodes, n`peer, n`child, n`parent, child`parent,
        (if n.parent.ChildSlot? then {n.parent.node} else {})`child
      ensures Real() && ChildSlot(n, bit) in old(view).held && view == Lift(old(view), n, bit)
      ensures nodes == old(nodes) - {n} && lists == old(lists) && routes == old(routes)
    {
      assert Shows(ChildSlot(n, bit), n.child[bit]);
      var slot := n.parent;
      SetParent(child, slot);
      StoreSlot(slot, child);
      Expel(n);
      ZeroizePointers(n);
    }

    /** Empties a leaf's slot, and takes the leaf out. */
    method UnhangLeaf(n: TrieEntry)
      requires Real() && n in nodes && view.IsSlot(n.parent)
      modifies this`IPv4, this`IPv6, this`view, this`nodes, n`peer, n`child, n`parent,
        (if n.parent.ChildSlot? then {n.parent.node} else {})`child
      ensures Real() && view == Unhang(old(view), n)
      ensures nodes == old(nodes) - {n} && lists == old(lists) && routes == old(routes)
    {
      StoreSlot(n.parent, null);
      Expel(n);
      ZeroizePointers(n);
    }

    /** What a node shows of its children and its parent. */
    lemma NodeView(n: TrieEntry)
      requires Tied() && view.Linked() && n in nodes
      ensures Shows(ChildSlot(n, 0), n.child[0]) && Shows(ChildSlot(n, 1), n.child[1])
      ensures view.up[n] == n.parent && view.owner[n] == n.peer && view.IsSlot(n.parent) && n.parent in view.held
      ensures forall b :: 0 <= b < 2 && n.child[b] != null ==> n.child[b] in nodes
    {
      assert view.held[n.parent] == n;
      assert Shows(ChildSlot(n, 0), n.child[0]) && Shows(ChildSlot(n, 1), n.child[1]);
    }

    /** A peerless node with one child left gives its place to that child. */
    method Collapse(parent: TrieEntry, b: nat)
      requires Real() && Gone(view, lists, routes, ChildSlot(parent, b)) && parent.peer == null
      modifies this`IPv4, this`IPv6, this`view, this`nodes, nodes
      ensures Valid() && nodes == old(nodes) - {parent} && lists == old(lists) && routes == old(routes)
    {
      NodeView(parent);
      hide Sound;
      CollapseSound(view, lists, routes, parent, b);
      assert Shows(ChildSlot(parent, 1 - b), parent.child[1 - b]);
      var child := parent.child[1 - b];
      LiftChild(parent, 1 - b, child);
    }

    /** Takes out a childless node, and its parent too when only a peerless node with one
        other child would be left. */
    method PruneLeaf(node: TrieEntry)
      requires Real() && Vacant(view, lists, routes, node) && node.child == [null, null]
      modifies this`IPv4, this`IPv6, this`view, this`nodes, nodes
      ensures Valid() && nodes <= old(nodes) && lists == old(lists) && routes == old(routes)
    {
      NodeView(node);
      var slot := node.parent;
      UnhangGone(view, lists, routes, node);
      UnhangLeaf(node);
      if slot.RootSlot? || slot.node.peer != null {
        GoneSound(view, lists, routes, slot);
      } else {
        Collapse(slot.node, slot.bit);
      }
    }

    /** Takes out a node that has lost its peer, unless it still forks. */
    method Prune(node: TrieEntry)
      requires Real() && Vacant(view, lists, routes, node)
      modifies this`IPv4, this`IPv6, this`view, this`nodes, nodes
      ensures Valid() && nodes <= old(nodes) && lists == old(lists) && routes == old(routes)
    {
      NodeView(node);
      if node.child[0] != null && node.child[1] != null {
        ForkStays(view, lists, routes, node);
        return;
      }
      var bit := if node.child[0] == null then 1 else 0;
      var child := node.child[bit];
      if child == null {
        PruneLeaf(node);
      } else {
        LiftSound(view, lists, routes, node, bit);
        LiftChild(node, bit, child);
      }
    }

    method RemoveEntry(node: TrieEntry, peer: Peer)
      requires Valid() && node in nodes && node.peer == peer && peer in lists
      modifies this`IPv4, this`IPv6, this`view, this`nodes, this`lists, this`routes, nodes, peer
      ensures Valid() && nodes <= old(nodes)
      ensures lists == Unlisted(old(view), old(lists), node) && routes == old(routes) - {node.Key()}
    {
      ReleaseSound(view, lists, routes, node);
      Release(node, routes - {node.Key()});
      Prune(node);
    }

    method RemoveByPeer(peer: Peer)
      requires Valid() && (peer in lists || peer.trieEntries == [])
      modifies this, nodes, peer
      ensures Valid() && nodes <= old(nodes) && routes == Without(old(routes), peer) && peer.trieEntries == []
      ensures lists == if peer in old(lists) then old(lists)[peer := []] else old(lists)
    {
      hide Sound;
      ghost var routes0, lists0 := routes, lists;
      while peer.trieEntries != []
        invariant Valid() && nodes <= old(nodes) && Without(routes, peer) == Without(routes0, peer)
        invariant if peer in lists0 then lists == lists0[peer := peer.trieEntries]
                  else lists == lists0 && peer.trieEntries == []
        decreases |peer.trieEntries|
      {
        var node := peer.trieEntries[0];
        FirstEntry(view, lists, routes, peer);
        WithoutStep(routes, peer, node.Key());
        WrittenTwice(lists0, peer, peer.trieEntries, peer.trieEntries[1..]);
        RemoveEntry(node, peer);
      }
      WithoutDone(view, lists, routes, peer);
    }

    /** The prefixes handed to the callback, which asks for no more in call number `stop`. */
    method EntriesForPeer(peer: Peer, stop: nat) returns (prefixes: seq<(Address, nat)>)
      requires Valid() && (peer in lists || peer.trieEntries == [])
      ensures |prefixes| == if stop < |peer.trieEntries| then stop + 1 else |peer.trieEntries|
      ensures EachOnce(prefixes, routes, peer)
      ensures |peer.trieEntries| <= stop ==> NoneMissing(prefixes, routes, peer)
    {
      prefixes := [];
      var i := 0;
      while i < |peer.trieEntries|
        invariant 0 <= i == |prefixes| <= |peer.trieEntries| && i <= stop
        invariant forall j :: 0 <= j < i ==> prefixes[j] == (peer.trieEntries[j].bits, peer.trieEntries[j].cidr)
      {
        prefixes := prefixes + [(peer.trieEntries[i].bits, peer.trieEntries[i].cidr)];
        if i == stop {
          break;
        }
        i := i + 1;
      }
      hide EachOnce, NoneMissing;
      if peer in lists {
        forall i | 0 <= i < |lists[peer]| ensures lists[peer][i].Spelled() && lists[peer][i].Masked() {
          Entry(view.owner, lists, peer, i);
        }
        EntriesGiven(view, lists, routes, peer, prefixes);
      } else {
        NothingGiven(view, lists, routes, peer);
      }
    }
  }

  /** A peer that never had a prefix has no routes. */
  lemma NothingGiven(t: Snapshot, lists: map<Peer, seq<TrieEntry>>, routes: map<Prefix, Peer>, peer: Peer)
    requires Sound(t, lists, routes) && peer !in lists
    ensures EachOnce([], routes, peer) && NoneMissing([], routes, peer)
  {
    forall q | q in routes ensures routes[q] != peer {
      var n :| n in t.owner && n.Key() == q && t.owner[n] == routes[q];
    }
  }

  function Spells(prefix: (Address, nat)): Prefix {
    Prefix(|prefix.0| == 16, if prefix.1 <= |Bits(prefix.0)| then Bits(prefix.0)[..prefix.1] else Bits(prefix.0))
  }

  /** A prefix with its host bits zero that is routed to the peer. */
  ghost predicate Given(prefix: (Address, nat), routes: map<Prefix, Peer>, peer: Peer) {
    && Spells(prefix) in routes && routes[Spells(prefix)] == peer
    && forall k :: prefix.1 <= k < |Bits(prefix.0)| ==> !Bits(prefix.0)[k]
  }

  /** Prefixes routed to the peer, none of them twice. */
  ghost predicate EachOnce(prefixes: seq<(Address, nat)>, routes: map<Prefix, Peer>, peer: Peer) {
    && (forall i :: 0 <= i < |prefixes| ==> Given(prefixes[i], routes, peer))
    && (forall i, j :: 0 <= i < j < |prefixes| ==> Spells(prefixes[i]) != Spells(prefixes[j]))
  }

  ghost predicate NoneMissing(prefixes: seq<(Address, nat)>, routes: map<Prefix, Peer>, peer: Peer) {
    forall q :: q in routes && routes[q] == peer ==> exists i :: 0 <= i < |prefixes| && Spells(prefixes[i]) == q
  }

  lemma EntriesGiven(t: Snapshot, lists: map<Peer, seq<TrieEntry>>, routes: map<Prefix, Peer>, peer: Peer,
      prefixes: seq<(Address, nat)>)
    requires Sound(t, lists, routes) && peer in lists && |prefixes| <= |lists[peer]|
    requires forall i :: 0 <= i < |lists[peer]| ==> lists[peer][i].Spelled() && lists[peer][i].Masked()
    requires forall i :: 0 <= i < |prefixes| ==> prefixes[i] == (lists[peer][i].bits, lists[peer][i].cidr)
    ensures EachOnce(prefixes, routes, peer) && (|prefixes| == |lists[peer]| ==> NoneMissing(prefixes, routes, peer))
  {
    assert t.Linked() && Lists(t.owner, lists);
    forall i | 0 <= i < |prefixes|
      ensures Spells(prefixes[i]) == lists[peer][i].Key() && Given(prefixes[i], routes, peer)
    {
      hide Sound, Bits;
      SpellsKey(lists[peer][i]);
      assert InList(lists[peer], lists[peer][i].Key());
      EntriesExact(t, lists, routes, peer, lists[peer][i].Key());
    }
    forall i, j | 0 <= i < j < |prefixes| ensures Spells(prefixes[i]) != Spells(prefixes[j]) {
      hide Sound, Lists, Bits, Spells;
      EntriesDistinct(t, lists, peer, i, j);
    }
    forall q | q in routes && routes[q] == peer && |prefixes| == |lists[peer]|
      ensures exists i :: 0 <= i < |prefixes| && Spells(prefixes[i]) == q
    {
      hide Sound, Lists, Bits, Spells;
      EntriesExact(t, lists, routes, peer, q);
    }
  }

  lemma SpellsKey(n: TrieEntry)
    requires n.Spelled() && n.Masked()
    ensures Spells((n.bits, n.cidr)) == n.Key() && forall k :: n.cidr <= k < |Bits(n.bits)| ==> !Bits(n.bits)[k]
  {
  }
}
