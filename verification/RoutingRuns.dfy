/** Whole runs of the routing table: any sequence of insertions and removals. */
module RoutingRuns {
  import opened AddressBits
  import opened Trie
  import opened Routing
  import opened AllowedIPs
  import SlowRouter

  datatype Operation = Put(ip: Address, cidr: nat, peer: Peer) | Drop(peer: Peer) {
    predicate Admissible() {
      Put? ==> cidr <= 8 * |ip|
    }

    ghost function Target(): Prefix
      requires Put? && Admissible()
    {
      Prefix(|ip| == 16, Bits(ip)[..cidr])
    }

    /** Performing this ends the route from q to p. */
    ghost predicate Ends(q: Prefix, p: Peer)
      requires Admissible()
    {
      if Put? then Target() == q else peer == p
    }
  }

  ghost predicate Admissible(ops: seq<Operation>) {
    forall i :: 0 <= i < |ops| ==> ops[i].Admissible()
  }

  ghost function Applied(routes: map<Prefix, Peer>, op: Operation): map<Prefix, Peer>
    requires op.Admissible()
  {
    match op
    case Put(_, _, peer) => routes[op.Target() := peer]
    case Drop(peer) => Without(routes, peer)
  }

  /** The routes a map would hold after the operations. */
  ghost function After(ops: seq<Operation>): map<Prefix, Peer>
    requires Admissible(ops)
  {
    if ops == [] then map[] else Applied(After(ops[..|ops| - 1]), ops[|ops| - 1])
  }

  /** Operation i put the route from q to p, and nothing since has ended it. */
  ghost predicate Live(ops: seq<Operation>, i: nat, q: Prefix, p: Peer)
    requires Admissible(ops)
  {
    && i < |ops| && ops[i].Put? && ops[i].Target() == q && ops[i].peer == p
    && forall j :: i < j < |ops| ==> !ops[j].Ends(q, p)
  }

  ghost predicate Held(routes: map<Prefix, Peer>, q: Prefix, p: Peer) {
    q in routes && routes[q] == p
  }

  lemma AppliedHolds(routes: map<Prefix, Peer>, op: Operation, q: Prefix, p: Peer)
    requires op.Admissible()
    ensures Held(Applied(routes, op), q, p) <==>
      if op.Ends(q, p) then op.Put? && op.peer == p else Held(routes, q, p)
  {
  }

  lemma LiveSnoc(init: seq<Operation>, op: Operation, i: nat, q: Prefix, p: Peer)
    requires Admissible(init) && op.Admissible()
    ensures Live(init + [op], i, q, p) <==>
      if i == |init| then op.Put? && op.Target() == q && op.peer == p else Live(init, i, q, p) && !op.Ends(q, p)
  {
    var ops := init + [op];
    assert forall j :: 0 <= j < |init| ==> ops[j] == init[j];
    assert ops[|init|] == op;
  }

  /** A route is held exactly when some insertion of it is live. */
  lemma {:induction false} AfterIsLive(ops: seq<Operation>, q: Prefix, p: Peer)
    requires Admissible(ops)
    ensures Held(After(ops), q, p) <==> exists i: nat :: Live(ops, i, q, p)
  {
    if ops != [] {
      var init, op := ops[..|ops| - 1], ops[|ops| - 1];
      assert ops == init + [op];
      AfterIsLive(init, q, p);
      AppliedHolds(After(init), op, q, p);
      LiveSnoc(init, op, |init|, q, p);
      assert Live(ops, |init|, q, p) <==> op.Put? && op.Target() == q && op.peer == p;
      forall i: nat | i != |init|
        ensures Live(ops, i, q, p) <==> Live(init, i, q, p) && !op.Ends(q, p)
      {
        LiveSnoc(init, op, i, q, p);
      }
    }
  }

  lemma EndedNotLive(ops: seq<Operation>, i: nat, j: nat, q: Prefix, p: Peer)
    requires Admissible(ops) && i < j < |ops| && ops[j].Ends(q, p)
    ensures !Live(ops, i, q, p)
  {
  }

  /** Removing every peer at the end leaves no route. */
  lemma AllDropped(ops: seq<Operation>, drops: seq<Operation>)
    requires Admissible(ops) && Admissible(drops) && forall j :: 0 <= j < |drops| ==> drops[j].Drop?
    requires forall i :: 0 <= i < |ops| ==> Drop(ops[i].peer) in drops
    ensures Admissible(ops + drops) && After(ops + drops) == map[]
  {
    hide After;
    var all := ops + drops;
    assert Admissible(all);
    forall q | q in After(all)
      ensures false
    {
      var p := After(all)[q];
      AfterIsLive(all, q, p);
      var i: nat :| Live(all, i, q, p);
      assert all[i] == ops[i];
      var j :| 0 <= j < |drops| && drops[j] == Drop(p);
      EndedNotLive(all, i, |ops| + j, q, p);
    }
  }

  /** A table without routes has no nodes left in either trie. */
  lemma NoRoutesEmptyTries(t: Table)
    requires t.Valid() && t.routes == map[]
    ensures t.IPv4 == null && t.IPv6 == null && t.nodes == {}
  {
    NoRoutesNoNodes(t.view, t.lists);
    assert t.Shows(RootSlot(false), t.IPv4) && t.Shows(RootSlot(true), t.IPv6);
  }

  /** The operations are about these peers only, and none of them has an entry yet. */
  ghost predicate AboutNewPeers(ops: seq<Operation>, peers: set<Peer>)
    reads peers
  {
    && (forall i :: 0 <= i < |ops| ==> ops[i].peer in peers)
    && (forall p :: p in peers ==> p.trieEntries == [])
  }

  method Perform(t: Table, op: Operation)
    requires t.Valid() && op.Admissible() && (op.peer in t.lists || op.peer.trieEntries == [])
    modifies t, t.nodes, t.lists.Keys, op.peer
    ensures t.Valid() && t.routes == Applied(old(t.routes), op)
    ensures fresh(t.nodes - old(t.nodes)) && old(t.lists).Keys <= t.lists.Keys <= old(t.lists).Keys + {op.peer}
    ensures op.peer in t.lists || op.peer.trieEntries == []
  {
    hide Sound;
    match op {
      case Put(ip, cidr, peer) =>
        ghost var added, fork := t.Insert(ip, cidr, peer);
      case Drop(peer) =>
        t.RemoveByPeer(peer);
    }
  }

  /** Runs the operations on an empty table. */
  method Run(ops: seq<Operation>, ghost peers: set<Peer>) returns (t: Table)
    requires Admissible(ops) && AboutNewPeers(ops, peers)
    modifies peers
    ensures fresh(t) && t.Valid() && t.routes == After(ops)
  {
    hide Sound;
    t := new Table();
    for k := 0 to |ops|
      invariant fresh(t) && fresh(t.nodes) && t.lists.Keys <= peers
      invariant t.Valid() && t.routes == After(ops[..k])
      invariant forall p :: p in peers ==> p in t.lists || p.trieEntries == []
    {
      assert ops[..k + 1][..k] == ops[..k];
      Perform(t, ops[k]);
    }
    assert ops[..|ops|] == ops;
  }

  /** The reference list of one family after the operations. */
  ghost function SlowAfter(ops: seq<Operation>, v6: bool): (r: seq<SlowRouter.SlowNode>)
    requires Admissible(ops)
    ensures SlowRouter.Mirrors(r, v6, After(ops))
  {
    if ops == [] then [] else
    var init, op := ops[..|ops| - 1], ops[|ops| - 1];
    var r := SlowAfter(init, v6);
    match op
    case Put(ip, cidr, peer) =>
      if (|ip| == 16) == v6 then
        SlowRouter.InsertMirrors(r, After(init), ip, cidr, peer);
        SlowRouter.Insert(r, ip, cidr, peer)
      else
        SlowRouter.OtherFamilyMirrors(r, v6, After(init), op.Target(), peer);
        r
    case Drop(peer) =>
      SlowRouter.RemoveMirrors(r, v6, After(init), peer);
      SlowRouter.RemoveByPeer(r, peer)
  }

  /** After any run, a lookup gives the peer of the longest live prefix covering the
      address, which is what the reference list gives. */
  method LookupAfter(ops: seq<Operation>, ghost peers: set<Peer>, ip: Address) returns (found: Peer?)
    requires Admissible(ops) && AboutNewPeers(ops, peers)
    modifies peers
    ensures IsLongestMatch(After(ops), ip, found)
    ensures found == SlowRouter.Lookup(SlowAfter(ops, |ip| == 16), ip)
  {
    hide Sound, SlowRouter.Lookup, SlowAfter;
    var t := Run(ops, peers);
    found := t.Lookup(ip);
    ghost var r := SlowAfter(ops, |ip| == 16);
    SlowRouter.LookupIsLongest(r, After(ops), ip);
    SlowRouter.LongestUnique(After(ops), ip, found, SlowRouter.Lookup(r, ip));
  }
}
