/** The list of prefixes that the tests hold the tries against: longest first, the
    first match wins. One list per address family. */
module SlowRouter {
  import opened AddressBits
  import opened Trie
  import opened Routing

  datatype SlowNode = SlowNode(peer: Peer, cidr: nat, bits: Address) {
    predicate Fits(v6: bool) {
      |bits| == (if v6 then 16 else 4) && cidr <= 8 * |bits|
    }

    /** The node's prefix; its address is not masked. */
    ghost function Key(): Prefix
      requires cidr <= 8 * |bits|
    {
      Prefix(|bits| == 16, Bits(bits)[..cidr])
    }
  }

  function Lookup(r: seq<SlowNode>, ip: Address): Peer?
    requires forall i :: 0 <= i < |r| ==> |r[i].bits| == |ip|
  {
    if r == [] then null else if CommonBits(r[0].bits, ip) >= r[0].cidr then r[0].peer else Lookup(r[1..], ip)
  }

  /** Where the same prefix is, if it is there. */
  function Find(r: seq<SlowNode>, addr: Address, cidr: nat): (k: nat)
    requires forall i :: 0 <= i < |r| ==> |r[i].bits| == |addr|
    ensures k <= |r|
  {
    if r == [] || (r[0].cidr == cidr && CommonBits(r[0].bits, addr) >= cidr) then 0 else 1 + Find(r[1..], addr, cidr)
  }

  /** Appending and sorting: the new node goes before the first that is not longer. */
  function Sorted(r: seq<SlowNode>, node: SlowNode): seq<SlowNode> {
    if r == [] || r[0].cidr <= node.cidr then [node] + r else [r[0]] + Sorted(r[1..], node)
  }

  function Insert(r: seq<SlowNode>, addr: Address, cidr: nat, peer: Peer): seq<SlowNode>
    requires forall i :: 0 <= i < |r| ==> |r[i].bits| == |addr|
  {
    var k := Find(r, addr, cidr);
    if k < |r| then r[k := SlowNode(peer, cidr, addr)] else Sorted(r, SlowNode(peer, cidr, addr))
  }

  function RemoveByPeer(r: seq<SlowNode>, peer: Peer): seq<SlowNode> {
    if r == [] then [] else (if r[0].peer != peer then [r[0]] else []) + RemoveByPeer(r[1..], peer)
  }

  // ----- what a list stands for

  ghost predicate AllFit(r: seq<SlowNode>, v6: bool) {
    forall i :: 0 <= i < |r| ==> r[i].Fits(v6)
  }

  ghost predicate Descending(r: seq<SlowNode>) {
    forall i, j :: 0 <= i < j < |r| ==> r[i].cidr >= r[j].cidr
  }

  ghost predicate Distinct(r: seq<SlowNode>)
    requires forall i :: 0 <= i < |r| ==> r[i].cidr <= 8 * |r[i].bits|
  {
    forall i, j :: 0 <= i < j < |r| ==> r[i].Key() != r[j].Key()
  }

  ghost predicate Has(r: seq<SlowNode>, q: Prefix)
    requires forall i :: 0 <= i < |r| ==> r[i].cidr <= 8 * |r[i].bits|
  {
    exists i :: 0 <= i < |r| && r[i].Key() == q
  }

  ghost predicate Routed(node: SlowNode, routes: map<Prefix, Peer>)
    requires node.cidr <= 8 * |node.bits|
  {
    node.Key() in routes && routes[node.Key()] == node.peer
  }

  /** The list holds exactly the routes of its family. */
  ghost predicate Mirrors(r: seq<SlowNode>, v6: bool, routes: map<Prefix, Peer>) {
    && AllFit(r, v6) && Descending(r) && Distinct(r)
    && (forall i :: 0 <= i < |r| ==> Routed(r[i], routes))
    && (forall q :: q in routes && q.v6 == v6 ==> Has(r, q))
  }

  lemma NodeMatches(node: SlowNode, ip: Address)
    requires node.Fits(|ip| == 16)
    ensures CommonBits(node.bits, ip) >= node.cidr <==> node.Key().Covers(ip)
  {
    CommonAtLeast(Bits(node.bits), Bits(ip), node.cidr);
    var k := Bits(node.bits)[..node.cidr];
    assert Bits(ip)[..node.cidr] == k <==> k <= Bits(ip);
  }

  /** Lookup stops at the first node that covers the address. */
  lemma {:induction false} LookupFirst(r: seq<SlowNode>, ip: Address) returns (k: nat)
    requires AllFit(r, |ip| == 16)
    ensures k <= |r| && forall i :: 0 <= i < k ==> !r[i].Key().Covers(ip)
    ensures k < |r| ==> r[k].Key().Covers(ip) && Lookup(r, ip) == r[k].peer
    ensures k == |r| ==> Lookup(r, ip) == null
  {
    hide Prefix.Covers, SlowNode.Key;
    k := 0;
    if r != [] {
      NodeMatches(r[0], ip);
      if !r[0].Key().Covers(ip) {
        var k' := LookupFirst(r[1..], ip);
        k := k' + 1;
        forall i | 0 <= i < k ensures !r[i].Key().Covers(ip) {
          assert i > 0 ==> r[i] == r[1..][i - 1];
        }
      }
    }
  }

  lemma FirstLongest(r: seq<SlowNode>, k: nat)
    requires Descending(r)
    ensures forall i :: k < i < |r| ==> r[i].cidr <= r[k].cidr
  {
  }

  /** The list's lookup is the longest match. */
  lemma LookupIsLongest(r: seq<SlowNode>, routes: map<Prefix, Peer>, ip: Address)
    requires Mirrors(r, |ip| == 16, routes)
    ensures IsLongestMatch(routes, ip, Lookup(r, ip))
  {
    hide Lookup, Descending, Distinct;
    var k := LookupFirst(r, ip);
    FirstLongest(r, k);
    forall q | q in routes && q.Covers(ip)
      ensures k < |r| && |q.bits| <= r[k].cidr
    {
      assert Has(r, q);
      var i :| 0 <= i < |r| && r[i].Key() == q;
      assert k <= i;
    }
    if k < |r| {
      assert Routed(r[k], routes);
    }
  }

  /** There is only one longest match. */
  lemma LongestUnique(routes: map<Prefix, Peer>, ip: Address, x: Peer?, y: Peer?)
    requires IsLongestMatch(routes, ip, x) && IsLongestMatch(routes, ip, y)
    ensures x == y
  {
    if x != null && y != null {
      var q :| q in routes && q.Covers(ip) && routes[q] == x && forall q' :: q' in routes && q'.Covers(ip) ==>
        |q'.bits| <= |q.bits|;
      var s :| s in routes && s.Covers(ip) && routes[s] == y && forall q' :: q' in routes && q'.Covers(ip) ==>
        |q'.bits| <= |s.bits|;
      assert q.bits == Bits(ip)[..|q.bits|] == s.bits;
    }
  }

  // ----- every operation keeps the list in step

  lemma SameKey(node: SlowNode, addr: Address, cidr: nat)
    requires node.Fits(|addr| == 16) && cidr <= 8 * |addr|
    ensures node.cidr == cidr && CommonBits(node.bits, addr) >= cidr <==>
      node.Key() == Prefix(|addr| == 16, Bits(addr)[..cidr])
  {
    CommonAtLeast(Bits(node.bits), Bits(addr), node.cidr);
  }

  lemma {:induction false} FindKey(r: seq<SlowNode>, addr: Address, cidr: nat)
    requires AllFit(r, |addr| == 16) && cidr <= 8 * |addr|
    ensures var k, q := Find(r, addr, cidr), Prefix(|addr| == 16, Bits(addr)[..cidr]);
      && (forall i :: 0 <= i < k ==> r[i].Key() != q)
      && (k < |r| ==> r[k].Key() == q)
  {
    if r != [] {
      SameKey(r[0], addr, cidr);
      FindKey(r[1..], addr, cidr);
      var k := Find(r[1..], addr, cidr);
      assert forall i :: 0 < i <= k && i < |r| ==> r[i] == r[1..][i - 1];
    }
  }

  /** r' is r with the node put in at k. */
  ghost predicate PutIn(r: seq<SlowNode>, k: nat, node: SlowNode, r': seq<SlowNode>) {
    && k <= |r| && |r'| == |r| + 1 && r'[k] == node
    && (forall i :: 0 <= i < k ==> r'[i] == r[i]) && (forall i :: k < i < |r'| ==> r'[i] == r[i - 1])
  }

  lemma {:induction false} SortedAt(r: seq<SlowNode>, node: SlowNode) returns (k: nat)
    ensures PutIn(r, k, node, Sorted(r, node))
    ensures (forall i :: 0 <= i < k ==> r[i].cidr > node.cidr) && (k < |r| ==> r[k].cidr <= node.cidr)
  {
    k := 0;
    if r != [] && r[0].cidr > node.cidr {
      var k' := SortedAt(r[1..], node);
      k := k' + 1;
      assert forall i :: 0 < i < |r| ==> r[i] == r[1..][i - 1];
    }
  }

  lemma PutInShape(r: seq<SlowNode>, v6: bool, k: nat, node: SlowNode, r': seq<SlowNode>)
    requires PutIn(r, k, node, r') && AllFit(r, v6) && Descending(r) && Distinct(r) && node.Fits(v6)
    requires (forall i :: 0 <= i < k ==> r[i].cidr > node.cidr) && (k < |r| ==> r[k].cidr <= node.cidr)
    requires forall i :: 0 <= i < |r| ==> r[i].Key() != node.Key()
    ensures AllFit(r', v6) && Descending(r') && Distinct(r')
  {
    hide SlowNode.Key;
    forall i | 0 <= i < |r'|
      ensures r'[i].Fits(v6)
    {
      assert i == k || r'[i] == r[if i < k then i else i - 1];
    }
    forall i, j | 0 <= i < j < |r'|
      ensures r'[i].cidr >= r'[j].cidr && r'[i].Key() != r'[j].Key()
    {
      assert i == k || r'[i] == r[if i < k then i else i - 1];
      assert j == k || r'[j] == r[if j < k then j else j - 1];
    }
  }

  lemma PutInRouted(r: seq<SlowNode>, v6: bool, routes: map<Prefix, Peer>, k: nat, node: SlowNode, r': seq<SlowNode>,
      i: nat)
    requires PutIn(r, k, node, r') && Mirrors(r, v6, routes) && AllFit(r', v6) && i < |r'|
    requires forall i :: 0 <= i < |r| ==> r[i].Key() != node.Key()
    ensures Routed(r'[i], routes[node.Key() := node.peer])
  {
    hide SlowNode.Key, Descending, Distinct;
    if i != k {
      var j := if i < k then i else i - 1;
      assert r'[i] == r[j] && Routed(r[j], routes);
    }
  }

  lemma PutInHas(r: seq<SlowNode>, v6: bool, k: nat, node: SlowNode, r': seq<SlowNode>, q: Prefix)
    requires PutIn(r, k, node, r') && AllFit(r, v6) && AllFit(r', v6) && (Has(r, q) || q == node.Key())
    ensures Has(r', q)
  {
    hide SlowNode.Key;
    if q == node.Key() {
      assert r'[k].Key() == q;
    } else {
      var i :| 0 <= i < |r| && r[i].Key() == q;
      var j := if i < k then i else i + 1;
      assert r'[j] == r[i] && r'[j].Key() == q;
    }
  }

  lemma InsertNewMirrors(r: seq<SlowNode>, v6: bool, routes: map<Prefix, Peer>, node: SlowNode)
    requires Mirrors(r, v6, routes) && node.Fits(v6) && forall i :: 0 <= i < |r| ==> r[i].Key() != node.Key()
    ensures Mirrors(Sorted(r, node), v6, routes[node.Key() := node.peer])
  {
    hide SlowNode.Key, Descending, Distinct, Has, Routed, Sorted, PutIn;
    var k := SortedAt(r, node);
    var r', routes' := Sorted(r, node), routes[node.Key() := node.peer];
    PutInShape(r, v6, k, node, r');
    forall i | 0 <= i < |r'| {
      PutInRouted(r, v6, routes, k, node, r', i);
    }
    forall q | q in routes' && q.v6 == v6
      ensures Has(r', q)
    {
      PutInHas(r, v6, k, node, r', q);
    }
  }

  lemma SameCidr(node: SlowNode, other: SlowNode, v6: bool)
    requires node.Fits(v6) && other.Fits(v6) && node.Key() == other.Key()
    ensures node.cidr == other.cidr
  {
    assert |node.Key().bits| == node.cidr && |other.Key().bits| == other.cidr;
  }

  lemma InsertOldMirrors(r: seq<SlowNode>, v6: bool, routes: map<Prefix, Peer>, k: nat, node: SlowNode)
    requires Mirrors(r, v6, routes) && node.Fits(v6) && k < |r| && r[k].Key() == node.Key()
    ensures Mirrors(r[k := node], v6, routes[node.Key() := node.peer])
  {
    hide SlowNode.Key;
    var r', routes' := r[k := node], routes[node.Key() := node.peer];
    SameCidr(r[k], node, v6);
    assert forall i :: 0 <= i < |r| ==> r[i].Fits(v6) && Routed(r[i], routes) && r'[i].Key() == r[i].Key();
    forall q | q in routes' && q.v6 == v6
      ensures Has(r', q)
    {
      if q != node.Key() {
        assert Has(r, q);
        var i :| 0 <= i < |r| && r[i].Key() == q;
        assert r'[i].Key() == q;
      } else {
        assert r'[k].Key() == q;
      }
    }
  }

  lemma InsertMirrors(r: seq<SlowNode>, routes: map<Prefix, Peer>, addr: Address, cidr: nat, peer: Peer)
    requires Mirrors(r, |addr| == 16, routes) && cidr <= 8 * |addr|
    ensures Mirrors(Insert(r, addr, cidr, peer), |addr| == 16, routes[Prefix(|addr| == 16, Bits(addr)[..cidr]) := peer])
  {
    var k, node := Find(r, addr, cidr), SlowNode(peer, cidr, addr);
    FindKey(r, addr, cidr);
    if k < |r| {
      InsertOldMirrors(r, |addr| == 16, routes, k, node);
    } else {
      InsertNewMirrors(r, |addr| == 16, routes, node);
    }
  }

  /** A route of the other family does not concern the list. */
  lemma OtherFamilyMirrors(r: seq<SlowNode>, v6: bool, routes: map<Prefix, Peer>, q: Prefix, peer: Peer)
    requires Mirrors(r, v6, routes) && q.v6 != v6
    ensures Mirrors(r, v6, routes[q := peer])
  {
    forall i | 0 <= i < |r|
      ensures Routed(r[i], routes[q := peer])
    {
      assert r[i].Fits(v6) && Routed(r[i], routes);
    }
  }

  /** What is left after a removal: the other peers' nodes, in their order. */
  lemma {:induction false} RemovedAt(r: seq<SlowNode>, peer: Peer, i: nat) returns (j: nat)
    requires i < |RemoveByPeer(r, peer)|
    ensures i <= j < |r| && RemoveByPeer(r, peer)[i] == r[j] && r[j].peer != peer
    ensures |RemoveByPeer(r[..j], peer)| == i
  {
    if r[0].peer != peer && i == 0 {
      j := 0;
      assert r[..0] == [];
    } else {
      var i' := if r[0].peer != peer then i - 1 else i;
      var j' := RemovedAt(r[1..], peer, i');
      j := j' + 1;
      assert r[..j][1..] == r[1..][..j'] && r[..j][0] == r[0];
    }
  }

  lemma {:induction false} RemovedHas(r: seq<SlowNode>, peer: Peer, j: nat) returns (i: nat)
    requires j < |r| && r[j].peer != peer
    ensures i < |RemoveByPeer(r, peer)| && RemoveByPeer(r, peer)[i] == r[j]
  {
    if j == 0 {
      i := 0;
    } else {
      var i' := RemovedHas(r[1..], peer, j - 1);
      i := if r[0].peer != peer then i' + 1 else i';
    }
  }

  lemma {:induction false} RemovedGrows(r: seq<SlowNode>, peer: Peer, j: nat, l: nat)
    requires j <= l <= |r|
    ensures |RemoveByPeer(r[..j], peer)| <= |RemoveByPeer(r[..l], peer)|
  {
    if j > 0 {
      RemovedGrows(r[1..], peer, j - 1, l - 1);
      assert r[..j][1..] == r[1..][..j - 1] && r[..l][1..] == r[1..][..l - 1];
    } else {
      assert r[..0] == [];
    }
  }

  /** Order is kept: of two nodes that are left the first was first. */
  lemma RemovedOrder(r: seq<SlowNode>, peer: Peer, i: nat, k: nat) returns (j: nat, l: nat)
    requires i < k < |RemoveByPeer(r, peer)|
    ensures j < l < |r| && RemoveByPeer(r, peer)[i] == r[j] && RemoveByPeer(r, peer)[k] == r[l]
  {
    j := RemovedAt(r, peer, i);
    l := RemovedAt(r, peer, k);
    if l <= j {
      RemovedGrows(r, peer, l, j);
    }
  }

  lemma RemoveMirrors(r: seq<SlowNode>, v6: bool, routes: map<Prefix, Peer>, peer: Peer)
    requires Mirrors(r, v6, routes)
    ensures Mirrors(RemoveByPeer(r, peer), v6, Without(routes, peer))
  {
    var r', routes' := RemoveByPeer(r, peer), Without(routes, peer);
    forall i | 0 <= i < |r'|
      ensures r'[i].Fits(v6) && Routed(r'[i], routes')
    {
      var j := RemovedAt(r, peer, i);
      assert r[j].Fits(v6) && Routed(r[j], routes);
    }
    forall i, k | 0 <= i < k < |r'|
      ensures r'[i].cidr >= r'[k].cidr && r'[i].Key() != r'[k].Key()
    {
      var j, l := RemovedOrder(r, peer, i, k);
    }
    forall q | q in routes' && q.v6 == v6
      ensures Has(r', q)
    {
      assert Has(r, q);
      var j :| 0 <= j < |r| && r[j].Key() == q;
      assert Routed(r[j], routes);
      var i := RemovedHas(r, peer, j);
      assert r'[i].Key() == q;
    }
  }
}
