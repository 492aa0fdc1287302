/** The path-compressed radix trie of the routing table: its nodes, a snapshot of
    their links as a value, and what each update of the links keeps. */
module Trie {
  import opened Bitwise
  import opened AddressBits

  /** A network prefix: address family and leading bits. */
  datatype Prefix = Prefix(v6: bool, bits: seq<bool>) {
    ghost predicate Covers(ip: Address) {
      v6 == (|ip| == 16) && bits <= Bits(ip)
    }
  }

  /** The slot that holds a node: a root of the table, or a child slot. */
  datatype ParentIndirection =
    | Detached
    | RootSlot(v6: bool)
    | ChildSlot(node: TrieEntry, bit: nat)

  class Peer {
    var trieEntries: seq<TrieEntry>

    constructor ()
      ensures trieEntries == []
    {
      trieEntries := [];
    }
  }

  class TrieEntry {
    var peer: Peer?
    var child: seq<TrieEntry?>
    var parent: ParentIndirection
    const cidr: nat
    const bitAtByte: nat
    const bitAtShift: nat
    const bits: Address
    var inPeerEntries: bool

    /** The address family and the leading bits that the node stands for. */
    ghost const size: nat
    ghost const key: seq<bool>

    ghost function Key(): Prefix {
      Prefix(size == 16, key)
    }

    ghost predicate Sized() {
      (size == 4 || size == 16) && |key| == cidr <= 8 * size
    }

    /** The stored bytes start with the node's prefix. */
    ghost predicate Spelled() {
      && Sized() && |bits| == size
      && bitAtByte == cidr / 8 && bitAtShift == 7 - cidr % 8
      && key <= Bits(bits)
    }

    /** All bits past the prefix are zero. */
    ghost predicate Masked() {
      |bits| == size && forall k :: cidr <= k < 8 * size ==> !Bits(bits)[k]
    }

    constructor (ip: Address, cidr: nat, peer: Peer?)
      requires cidr <= 8 * |ip|
      ensures this.peer == peer && child == [null, null] && parent == Detached && !inPeerEntries
      ensures this.cidr == cidr && size == |ip| && key == Bits(ip)[..cidr]
      ensures Spelled() && Masked()
    {
      var masked := MaskSelf(ip, cidr);
      this.peer := peer;
      this.child := [null, null];
      this.parent := Detached;
      this.cidr := cidr;
      this.bitAtByte := cidr / 8;
      this.bitAtShift := 7 - cidr % 8;
      this.bits := masked;
      this.inPeerEntries := false;
      this.size := |ip|;
      this.key := Bits(ip)[..cidr];
    }

    static method MaskSelf(ip: Address, cidr: nat) returns (bits: Address)
      requires cidr <= 8 * |ip|
      ensures |bits| == |ip|
      ensures Bits(bits)[..cidr] == Bits(ip)[..cidr]
      ensures forall k :: cidr <= k < 8 * |bits| ==> !Bits(bits)[k]
    {
      bits := ip;
      var i := 0;
      while i < |bits|
        invariant 0 <= i <= |bits| == |ip|
        invariant forall j :: 0 <= j < i ==> bits[j] == And(ip[j], MaskByte(cidr, j))
        invariant forall j :: i <= j < |bits| ==> bits[j] == ip[j]
      {
        bits := bits[i := And(bits[i], MaskByte(cidr, i))];
        i := i + 1;
      }
      MaskedBits(ip, cidr, bits);
    }

    /** The test of both search loops: ip lies within the node's prefix. */
    predicate Matches(ip: Address)
      requires Spelled() && |ip| == size
      ensures Matches(ip) <==> key <= Bits(ip)
    {
      CommonAtLeast(Bits(bits), Bits(ip), cidr);
      CommonBits(bits, ip) >= cidr
    }

    /** The side on which the search for ip goes on. */
    function Chosen(ip: Address): (bit: nat)
      requires Spelled() && |ip| == size && cidr < 8 * size
      ensures bit == Digit(Bits(ip)[cidr]) && bit < 2
    {
      Choose(ip, bitAtByte, bitAtShift)
    }
  }

  ghost predicate NoDuplicates<T>(s: seq<T>) {
    forall i, j :: 0 <= i < j < |s| ==> s[i] != s[j]
  }

  /** s without its first occurrence of x. */
  function Remove(s: seq<TrieEntry>, x: TrieEntry): seq<TrieEntry> {
    if s == [] then [] else if s[0] == x then s[1..] else [s[0]] + Remove(s[1..], x)
  }

  lemma {:induction false} RemoveMember(s: seq<TrieEntry>, x: TrieEntry, y: TrieEntry)
    requires NoDuplicates(s)
    ensures y in Remove(s, x) <==> y in s && y != x
  {
    if s != [] {
      assert s == [s[0]] + s[1..];
      if s[0] != x {
        RemoveMember(s[1..], x, y);
      }
    }
  }

  lemma {:induction false} RemoveNoDuplicates(s: seq<TrieEntry>, x: TrieEntry)
    requires NoDuplicates(s)
    ensures NoDuplicates(Remove(s, x))
  {
    if s != [] && s[0] != x {
      RemoveNoDuplicates(s[1..], x);
      RemoveMember(s[1..], x, s[0]);
      assert s[0] !in s[1..];
    }
  }

  /** c's prefix strictly extends p's, with bit b next. */
  ghost predicate Extends(p: TrieEntry, b: nat, c: TrieEntry) {
    && c.size == p.size
    && |p.key| < |c.key| && p.key <= c.key && Digit(c.key[|p.key|]) == b
  }

  // ----- the linked structure as a value

  ghost function Slots(n: TrieEntry): set<ParentIndirection> {
    {ChildSlot(n, 0), ChildSlot(n, 1)}
  }

  /** A snapshot of both tries: what each occupied slot holds, which slot each node names
      as its parent, and which peer each node routes to, if any. */
  datatype Snapshot = Snapshot(held: map<ParentIndirection, TrieEntry>, up: map<TrieEntry, ParentIndirection>,
      owner: map<TrieEntry, Peer?>) {

    ghost predicate IsSlot(slot: ParentIndirection) {
      match slot
      case Detached => false
      case RootSlot(_) => true
      case ChildSlot(p, b) => p in owner && b < 2
    }

    /** Every occupied slot exists, and its content fits there. */
    ghost predicate Sorted() {
      forall slot :: slot in held ==> IsSlot(slot) && Fits(slot, held[slot])
    }

    /** Slots and parent indirections name each other, and prefixes grow downwards. */
    ghost predicate Linked() {
      && up.Keys == owner.Keys
      && (forall n :: n in owner ==> n.Sized())
      && Sorted()
      && Inverse(held, up)
    }

    /** A node without a peer is there only to fork; just the slots in hollow may be empty. */
    ghost predicate Full(hollow: set<ParentIndirection>) {
      forall n, b :: n in owner && owner[n] == null && 0 <= b < 2 ==>
        ChildSlot(n, b) in held || ChildSlot(n, b) in hollow
    }

    ghost predicate Shape() {
      Linked() && Full({})
    }
  }

  /** c may hang from the slot: it strictly extends the prefix of the slot's owner, on the
      slot's side. */
  ghost predicate Fits(slot: ParentIndirection, c: TrieEntry) {
    match slot
    case Detached => false
    case RootSlot(v6) => v6 == (c.size == 16)
    case ChildSlot(p, b) => Extends(p, b, c)
  }

  ghost predicate Inverse(held: map<ParentIndirection, TrieEntry>, up: map<TrieEntry, ParentIndirection>) {
    && (forall slot :: slot in held ==> held[slot] in up && up[held[slot]] == slot)
    && (forall n :: n in up ==> up[n] in held && held[up[n]] == n)
  }

  lemma InverseAdd(held: map<ParentIndirection, TrieEntry>, up: map<TrieEntry, ParentIndirection>,
      slot: ParentIndirection, n: TrieEntry)
    requires Inverse(held, up) && slot !in held && n !in up
    ensures Inverse(held[slot := n], up[n := slot])
  {
  }

  lemma InverseCut(held: map<ParentIndirection, TrieEntry>, up: map<TrieEntry, ParentIndirection>, n: TrieEntry)
    requires Inverse(held, up) && n in up
    ensures Inverse(held - {up[n]}, up - {n})
  {
  }

  // ----- search paths

  /** n's prefix covers the address bits w and is at most limit bits long. */
  ghost predicate OnWay(n: TrieEntry, w: seq<bool>, limit: nat) {
    8 * n.size == |w| && |n.key| <= limit && n.key <= w
  }

  /** The slot that the search for the address bits w comes to after parent. */
  ghost function Beyond(parent: TrieEntry?, w: seq<bool>): ParentIndirection {
    if parent == null then RootSlot(|w| == 128)
    else if |parent.key| < |w| then ChildSlot(parent, Digit(w[|parent.key|]))
    else Detached
  }

  /** A set of nodes that contains the root and, with a node, the next node of the
      search for w, as far as these are on the way. */
  ghost predicate ClosedPath(t: Snapshot, visited: set<TrieEntry>, w: seq<bool>, limit: nat) {
    && (forall v :: v in visited ==> v in t.up)
    && NextVisited(t, visited, Beyond(null, w), w, limit)
    && (forall v :: v in visited ==> NextVisited(t, visited, Beyond(v, w), w, limit))
  }

  ghost predicate NextVisited(t: Snapshot, visited: set<TrieEntry>, slot: ParentIndirection, w: seq<bool>, limit: nat) {
    slot in t.held && OnWay(t.held[slot], w, limit) ==> t.held[slot] in visited
  }

  /** A closed path misses no node that covers the address. */
  lemma {:induction false} PathComplete(t: Snapshot, visited: set<TrieEntry>, w: seq<bool>, limit: nat, m: TrieEntry)
    requires t.Linked() && ClosedPath(t, visited, w, limit) && (|w| == 32 || |w| == 128)
    requires m in t.up && OnWay(m, w, limit)
    ensures m in visited
    decreases |m.key|
  {
    var slot := t.up[m];
    assert t.held[slot] == m;
    match slot
    case RootSlot(f) =>
      assert Beyond(null, w) == slot;
    case ChildSlot(p, b) =>
      PathComplete(t, visited, w, limit, p);
      assert Beyond(p, w) == slot;
  }

  /** The nodes from the root of the trie down to m. */
  ghost function Ancestors(t: Snapshot, m: TrieEntry): (anc: set<TrieEntry>)
    requires t.Linked() && m in t.up
    ensures m in anc
    ensures forall v :: v in anc ==> v in t.up && v.key <= m.key && v.size == m.size && (|v.key| == |m.key| ==> v == m)
    decreases |m.key|
  {
    assert t.held[t.up[m]] == m;
    match t.up[m]
    case ChildSlot(p, b) => {m} + Ancestors(t, p)
    case _ => {m}
  }

  lemma {:induction false} AncestorsLinked(t: Snapshot, m: TrieEntry)
    requires t.Linked() && m in t.up
    ensures RootSlot(m.size == 16) in t.held && t.held[RootSlot(m.size == 16)] in Ancestors(t, m)
    ensures forall v :: v in Ancestors(t, m) && v != m ==>
              var slot := ChildSlot(v, Digit(m.key[|v.key|])); slot in t.held && t.held[slot] in Ancestors(t, m)
    decreases |m.key|
  {
    assert t.held[t.up[m]] == m;
    match t.up[m]
    case RootSlot(f) =>
    case ChildSlot(p, b) =>
      AncestorsLinked(t, p);
  }

  /** Distinct nodes stand for distinct prefixes. */
  lemma KeysUnique(t: Snapshot, m: TrieEntry, n: TrieEntry)
    requires t.Linked() && m in t.up && n in t.up && m.Key() == n.Key()
    ensures m == n
  {
    var w := m.key + seq(8 * m.size - |m.key|, _ => false);
    AncestorsClosed(t, m, w);
    PathComplete(t, Ancestors(t, m), w, |m.key|, n);
  }

  lemma AncestorsClosed(t: Snapshot, m: TrieEntry, w: seq<bool>)
    requires t.Linked() && m in t.up && m.key <= w && |w| == 8 * m.size
    ensures ClosedPath(t, Ancestors(t, m), w, |m.key|)
  {
    AncestorsLinked(t, m);
  }

  lemma KeyUnique(t: Snapshot, n: TrieEntry)
    requires t.Linked() && n in t.up
    ensures forall m :: m in t.owner && m.Key() == n.Key() ==> m == n
  {
    forall m | m in t.owner && m.Key() == n.Key()
      ensures m == n
    {
      KeysUnique(t, m, n);
    }
  }

  // ----- the search loops

  /** The state of a search loop: visited holds the nodes passed so far, and parent the
      last of them. */
  ghost predicate Searching(t: Snapshot, visited: set<TrieEntry>, parent: TrieEntry?, w: seq<bool>, limit: nat) {
    && (forall v :: v in visited ==> v in t.up && parent != null && OnWay(v, w, limit) && |v.key| <= |parent.key|)
    && (parent != null ==> parent in visited && |parent.key| < limit && |parent.key| < |w|)
    && (parent != null ==> NextVisited(t, visited, Beyond(null, w), w, limit))
    && (forall v :: v in visited && v != parent ==> NextVisited(t, visited, Beyond(v, w), w, limit))
  }

  /** What the search meets next. */
  lemma SearchNext(t: Snapshot, visited: set<TrieEntry>, parent: TrieEntry?, w: seq<bool>, limit: nat, node: TrieEntry)
    requires t.Linked() && Searching(t, visited, parent, w, limit) && (|w| == 32 || |w| == 128)
    requires Beyond(parent, w) in t.held && t.held[Beyond(parent, w)] == node
    ensures node in t.up && 8 * node.size == |w| && (parent != null ==> |parent.key| < |node.key|)
  {
  }

  /** Once the next node is visited, so is all that comes after the nodes before it. */
  lemma PathGrows(t: Snapshot, visited: set<TrieEntry>, parent: TrieEntry?, w: seq<bool>, limit: nat, node: TrieEntry)
    requires Searching(t, visited, parent, w, limit)
    requires Beyond(parent, w) in t.held && t.held[Beyond(parent, w)] == node
    ensures NextVisited(t, visited + {node}, Beyond(null, w), w, limit)
    ensures forall v :: v in visited ==> NextVisited(t, visited + {node}, Beyond(v, w), w, limit)
  {
    hide OnWay, Beyond;
    forall v | v in visited ensures NextVisited(t, visited + {node}, Beyond(v, w), w, limit) {
      assert v != parent ==> NextVisited(t, visited, Beyond(v, w), w, limit);
    }
  }

  lemma SearchStep(t: Snapshot, visited: set<TrieEntry>, parent: TrieEntry?, w: seq<bool>, limit: nat, node: TrieEntry)
    requires t.Linked() && Searching(t, visited, parent, w, limit) && (|w| == 32 || |w| == 128)
    requires Beyond(parent, w) in t.held && t.held[Beyond(parent, w)] == node
    requires OnWay(node, w, limit) && |node.key| < limit && |node.key| < |w|
    ensures Searching(t, visited + {node}, node, w, limit)
  {
    hide Snapshot.Linked, OnWay, Beyond, NextVisited;
    SearchNext(t, visited, parent, w, limit, node);
    PathGrows(t, visited, parent, w, limit, node);
  }

  lemma SearchEnd(t: Snapshot, visited: set<TrieEntry>, parent: TrieEntry?, w: seq<bool>, limit: nat)
    requires Searching(t, visited, parent, w, limit)
    requires Beyond(parent, w) in t.held ==> !OnWay(t.held[Beyond(parent, w)], w, limit)
    ensures ClosedPath(t, visited, w, limit)
  {
  }

  lemma SearchEndFull(t: Snapshot, visited: set<TrieEntry>, parent: TrieEntry?, w: seq<bool>, limit: nat,
      node: TrieEntry)
    requires t.Linked() && Searching(t, visited, parent, w, limit) && (|w| == 32 || |w| == 128)
    requires Beyond(parent, w) in t.held && t.held[Beyond(parent, w)] == node
    requires OnWay(node, w, limit) && (|node.key| == limit || |node.key| == |w|)
    ensures ClosedPath(t, visited + {node}, w, limit)
    ensures forall v :: v in visited + {node} ==> |v.key| <= |node.key|
  {
    hide Snapshot.Linked, OnWay, Beyond, NextVisited;
    SearchNext(t, visited, parent, w, limit, node);
    PathGrows(t, visited, parent, w, limit, node);
    NothingBeyond(t, visited + {node}, w, limit, node);
  }

  /** What comes after a node of full length is not on the way. */
  lemma NothingBeyond(t: Snapshot, visited: set<TrieEntry>, w: seq<bool>, limit: nat, node: TrieEntry)
    requires t.Linked() && (|node.key| == limit || |node.key| == |w|)
    ensures NextVisited(t, visited, Beyond(node, w), w, limit)
  {
  }

  // ----- the updates of insert

  /** A new node that hangs nowhere yet. */
  ghost function Admitted(t: Snapshot, n: TrieEntry, peer: Peer?): Snapshot {
    Snapshot(t.held, t.up[n := Detached], t.owner[n := peer])
  }

  /** n hung from a slot: the slot and n's parent indirection name each other. */
  ghost function Hung(t: Snapshot, slot: ParentIndirection, n: TrieEntry): Snapshot {
    Snapshot(t.held[slot := n], t.up[n := slot], t.owner)
  }

  lemma WrittenTwice<K, V>(m: map<K, V>, k: K, v: V, v': V)
    ensures m[k := v][k := v'] == m[k := v']
  {
  }

  lemma RemovedThenWritten<K, V>(m: map<K, V>, k: K, v: V)
    ensures (m - {k})[k := v] == m[k := v]
  {
  }

  /** A new leaf in an empty slot. */
  ghost function WithLeaf(t: Snapshot, slot: ParentIndirection, n: TrieEntry, peer: Peer): Snapshot {
    Hung(Admitted(t, n, peer), slot, n)
  }

  lemma LeafKeepsShape(t: Snapshot, slot: ParentIndirection, n: TrieEntry, peer: Peer)
    requires t.Shape() && n !in t.up && n.Sized()
    requires t.IsSlot(slot) && slot !in t.held && Fits(slot, n)
    ensures WithLeaf(t, slot, n, peer).Shape()
  {
    WrittenTwice(t.up, n, Detached, slot);
    InverseAdd(t.held, t.up, slot, n);
  }

  /** A new node between a slot and its content. */
  ghost function WithNodeAbove(t: Snapshot, slot: ParentIndirection, n: TrieEntry, peer: Peer, down: TrieEntry,
      bit: nat): Snapshot {
    Hung(Hung(Admitted(t, n, peer), ChildSlot(n, bit), down), slot, n)
  }

  lemma NodeAboveInverse(t: Snapshot, slot: ParentIndirection, n: TrieEntry, down: TrieEntry, bit: nat)
    requires t.Linked() && n !in t.up && slot in t.held && t.held[slot] == down
    ensures Inverse(t.held[ChildSlot(n, bit) := down][slot := n],
      t.up[n := Detached][down := ChildSlot(n, bit)][n := slot])
  {
    var over := ChildSlot(n, bit);
    var held, up := t.held - {slot}, t.up - {down};
    InverseCut(t.held, t.up, down);
    InverseAdd(held, up, over, down);
    InverseAdd(held[over := down], up[down := over], slot, n);
    assert held[over := down][slot := n] == t.held[over := down][slot := n];
    assert up[down := over][n := slot] == t.up[n := Detached][down := over][n := slot];
  }

  lemma NodeAboveKeepsShape(t: Snapshot, slot: ParentIndirection, n: TrieEntry, peer: Peer, down: TrieEntry, bit: nat)
    requires t.Shape() && n !in t.up && n.Sized() && bit < 2
    requires slot in t.held && t.held[slot] == down && Fits(slot, n) && Extends(n, bit, down)
    ensures WithNodeAbove(t, slot, n, peer, down, bit).Shape()
  {
    NodeAboveInverse(t, slot, n, down, bit);
  }

  /** A peerless fork between a slot and its content, with a new node on its other side. */
  ghost function WithFork(t: Snapshot, slot: ParentIndirection, fork: TrieEntry, n: TrieEntry, peer: Peer,
      down: TrieEntry, bit: nat): Snapshot
    requires bit < 2
  {
    Hung(Hung(Hung(Admitted(Admitted(t, n, peer), fork, null), ChildSlot(fork, bit), down), ChildSlot(fork, 1 - bit),
      n), slot, fork)
  }

  /** What the slots hold, and where the nodes hang, after a fork is spliced in. */
  ghost function ForkHeld(held: map<ParentIndirection, TrieEntry>, slot: ParentIndirection, fork: TrieEntry,
      n: TrieEntry, down: TrieEntry, near: ParentIndirection, far: ParentIndirection): map<ParentIndirection, TrieEntry>
  {
    held[near := down][far := n][slot := fork]
  }

  ghost function ForkUp(up: map<TrieEntry, ParentIndirection>, slot: ParentIndirection, fork: TrieEntry, n: TrieEntry,
      down: TrieEntry, near: ParentIndirection, far: ParentIndirection): map<TrieEntry, ParentIndirection>
  {
    up[down := near][n := far][fork := slot]
  }

  /** The slots of a node that is not in the trie hold nothing. */
  lemma NewSlotsFree(t: Snapshot, fork: TrieEntry, bit: nat)
    requires t.Linked() && fork !in t.up
    ensures ChildSlot(fork, bit) !in t.held
  {
  }

  lemma HeldInverse(t: Snapshot, slot: ParentIndirection)
    requires t.Linked() && slot in t.held
    ensures Inverse(t.held, t.up) && t.held[slot] in t.up && t.up[t.held[slot]] == slot
  {
  }

  lemma ForkInverse(t: Snapshot, slot: ParentIndirection, fork: TrieEntry, n: TrieEntry, down: TrieEntry,
      near: ParentIndirection, far: ParentIndirection)
    requires t.Linked() && n !in t.up && fork !in t.up && fork != n && slot in t.held && t.held[slot] == down
    requires near != far && near !in t.held && far !in t.held
    ensures Inverse(ForkHeld(t.held, slot, fork, n, down, near, far), ForkUp(t.up, slot, fork, n, down, near, far))
  {
    HeldInverse(t, slot);
    ForkInverseMaps(t.held, t.up, slot, fork, n, down, near, far);
  }

  lemma ForkInverseMaps(held: map<ParentIndirection, TrieEntry>, up: map<TrieEntry, ParentIndirection>,
      slot: ParentIndirection, fork: TrieEntry, n: TrieEntry, down: TrieEntry, near: ParentIndirection,
      far: ParentIndirection)
    requires Inverse(held, up) && down in up && up[down] == slot && slot in held
    requires n !in up && fork !in up && fork != n && near != far && near !in held && far !in held
    ensures Inverse(ForkHeld(held, slot, fork, n, down, near, far), ForkUp(up, slot, fork, n, down, near, far))
  {
    hide Inverse;
    var held', up' := held - {slot}, up - {down};
    InverseCut(held, up, down);
    InverseAdd(held', up', near, down);
    InverseAdd(held'[near := down], up'[down := near], far, n);
    InverseAdd(held'[near := down][far := n], up'[down := near][n := far], slot, fork);
    CutThenFork(held, slot, fork, n, down, near, far);
    CutThenHang(up, slot, fork, n, down, near, far);
  }

  lemma CutThenFork(held: map<ParentIndirection, TrieEntry>, slot: ParentIndirection, fork: TrieEntry, n: TrieEntry,
      down: TrieEntry, near: ParentIndirection, far: ParentIndirection)
    ensures (held - {slot})[near := down][far := n][slot := fork] == ForkHeld(held, slot, fork, n, down, near, far)
  {
  }

  lemma CutThenHang(up: map<TrieEntry, ParentIndirection>, slot: ParentIndirection, fork: TrieEntry, n: TrieEntry,
      down: TrieEntry, near: ParentIndirection, far: ParentIndirection)
    ensures (up - {down})[down := near][n := far][fork := slot] == ForkUp(up, slot, fork, n, down, near, far)
  {
  }

  lemma ForkParents(up: map<TrieEntry, ParentIndirection>, slot: ParentIndirection, fork: TrieEntry, n: TrieEntry,
      down: TrieEntry, near: ParentIndirection, far: ParentIndirection)
    requires n !in up && fork !in up && fork != n && down in up
    ensures up[n := Detached][fork := Detached][down := near][n := far][fork := slot]
         == ForkUp(up, slot, fork, n, down, near, far)
  {
  }

  lemma ForkSorted(t: Snapshot, slot: ParentIndirection, fork: TrieEntry, n: TrieEntry, peer: Peer, down: TrieEntry,
      bit: nat)
    requires t.Sorted() && bit < 2 && slot in t.held && Fits(slot, fork) && Extends(fork, bit, down)
    requires Extends(fork, 1 - bit, n)
    ensures WithFork(t, slot, fork, n, peer, down, bit).Sorted()
  {
  }

  lemma ForkFull(t: Snapshot, slot: ParentIndirection, fork: TrieEntry, n: TrieEntry, peer: Peer, down: TrieEntry,
      bit: nat)
    requires t.Full({}) && n !in t.owner && fork !in t.owner && fork != n && bit < 2
    ensures WithFork(t, slot, fork, n, peer, down, bit).Full({})
  {
  }

  lemma ForkKeepsShape(t: Snapshot, slot: ParentIndirection, fork: TrieEntry, n: TrieEntry, peer: Peer,
      down: TrieEntry, bit: nat)
    requires t.Shape() && n !in t.up && n.Sized() && fork !in t.up && fork.Sized() && fork != n && bit < 2
    requires slot in t.held && t.held[slot] == down && Fits(slot, fork)
    requires Extends(fork, bit, down) && Extends(fork, 1 - bit, n)
    ensures WithFork(t, slot, fork, n, peer, down, bit).Shape()
  {
    hide Inverse, Snapshot.Sorted, Snapshot.Full;
    var near, far := ChildSlot(fork, bit), ChildSlot(fork, 1 - bit);
    NewSlotsFree(t, fork, bit);
    NewSlotsFree(t, fork, 1 - bit);
    ForkInverse(t, slot, fork, n, down, near, far);
    HeldInverse(t, slot);
    ForkParents(t.up, slot, fork, n, down, near, far);
    ForkSorted(t, slot, fork, n, peer, down, bit);
    ForkFull(t, slot, fork, n, peer, down, bit);
  }

  // ----- the updates of removal

  ghost function WithPeer(t: Snapshot, n: TrieEntry, peer: Peer?): Snapshot {
    t.(owner := t.owner[n := peer])
  }

  lemma WithPeerKeeps(t: Snapshot, n: TrieEntry, peer: Peer?)
    requires t.Linked() && n in t.owner
    ensures WithPeer(t, n, peer).Linked()
    ensures t.Full({}) ==> WithPeer(t, n, peer).Full(Slots(n))
    ensures t.Full(Slots(n)) && peer != null ==> WithPeer(t, n, peer).Full({})
  {
    hide Inverse, Snapshot.Sorted, Snapshot.Full;
    WithPeerSorted(t, n, peer);
    WithPeerFull(t, n, peer);
  }

  lemma WithPeerSorted(t: Snapshot, n: TrieEntry, peer: Peer?)
    requires t.Sorted() && n in t.owner
    ensures WithPeer(t, n, peer).Sorted()
  {
    hide Fits;
    var t' := WithPeer(t, n, peer);
    forall slot | slot in t'.held ensures t'.IsSlot(slot) && Fits(slot, t'.held[slot]) {
      assert slot in t.held && t.IsSlot(slot);
    }
  }

  lemma WithPeerFull(t: Snapshot, n: TrieEntry, peer: Peer?)
    requires n in t.owner
    ensures t.Full({}) ==> WithPeer(t, n, peer).Full(Slots(n))
    ensures t.Full(Slots(n)) && peer != null ==> WithPeer(t, n, peer).Full({})
  {
  }

  /** Takes a childless node off its slot. */
  ghost function Unhang(t: Snapshot, n: TrieEntry): Snapshot
    requires n in t.up
  {
    Snapshot(t.held - {t.up[n]} - Slots(n), t.up - {n}, t.owner - {n})
  }

  lemma UnhangKeeps(t: Snapshot, n: TrieEntry)
    requires t.Linked() && n in t.up && ChildSlot(n, 0) !in t.held && ChildSlot(n, 1) !in t.held
    ensures Unhang(t, n).Linked()
  {
    var t' := Unhang(t, n);
    InverseCut(t.held, t.up, n);
    assert t'.held == t.held - {t.up[n]};
    forall slot | slot in t'.held
      ensures t'.IsSlot(slot) && Fits(slot, t'.held[slot])
    {
      assert slot in t.held && t.IsSlot(slot);
    }
  }

  lemma UnhangFull(t: Snapshot, n: TrieEntry)
    requires t.Linked() && t.Full(Slots(n)) && n in t.up
    ensures Unhang(t, n).Full({t.up[n]})
  {
  }

  /** Takes a node with one child out of the trie and hangs the child from its slot. */
  ghost function Lift(t: Snapshot, n: TrieEntry, bit: nat): Snapshot
    requires n in t.up && ChildSlot(n, bit) in t.held
  {
    var c := t.held[ChildSlot(n, bit)];
    Snapshot(t.held[t.up[n] := c] - Slots(n), t.up[c := t.up[n]] - {n}, t.owner - {n})
  }

  lemma LiftInverse(t: Snapshot, n: TrieEntry, bit: nat)
    requires t.Linked() && n in t.up && bit < 2 && ChildSlot(n, bit) in t.held && ChildSlot(n, 1 - bit) !in t.held
    ensures Inverse(Lift(t, n, bit).held, Lift(t, n, bit).up)
  {
    var over, slot, c := ChildSlot(n, bit), t.up[n], t.held[ChildSlot(n, bit)];
    LiftApart(t, n, bit);
    HeldInverse(t, over);
    hide Snapshot.Linked, Inverse;
    InverseCut(t.held, t.up, c);
    InverseCut(t.held - {over}, t.up - {c}, n);
    InverseAdd(t.held - {over} - {slot}, t.up - {c} - {n}, slot, c);
    LiftHeld(t.held, slot, c, n, bit);
    LiftUp(t.up, slot, c, n);
  }

  /** The child lifted is not the node, and the node does not hang from itself. */
  lemma LiftApart(t: Snapshot, n: TrieEntry, bit: nat)
    requires t.Linked() && n in t.up && ChildSlot(n, bit) in t.held
    ensures t.held[ChildSlot(n, bit)] != n && t.up[n] !in Slots(n)
    ensures t.up[n] in t.held && t.held[t.up[n]] == n
  {
    assert t.Sorted();
    assert Fits(ChildSlot(n, bit), t.held[ChildSlot(n, bit)]) && Fits(t.up[n], n);
  }

  lemma LiftHeld(held: map<ParentIndirection, TrieEntry>, slot: ParentIndirection, c: TrieEntry, n: TrieEntry, bit: nat)
    requires bit < 2 && slot !in Slots(n) && ChildSlot(n, 1 - bit) !in held
    ensures (held - {ChildSlot(n, bit)} - {slot})[slot := c] == held[slot := c] - Slots(n)
  {
  }

  lemma LiftUp(up: map<TrieEntry, ParentIndirection>, slot: ParentIndirection, c: TrieEntry, n: TrieEntry)
    requires c != n
    ensures (up - {c} - {n})[c := slot] == up[c := slot] - {n}
  {
  }

  lemma LiftFull(t: Snapshot, hollow: set<ParentIndirection>, n: TrieEntry, bit: nat)
    requires t.Linked() && t.Full(hollow) && hollow <= Slots(n) && n in t.up && ChildSlot(n, bit) in t.held
    ensures Lift(t, n, bit).Full({})
  {
  }

  lemma LiftKeeps(t: Snapshot, n: TrieEntry, bit: nat)
    requires t.Linked() && n in t.up && bit < 2
    requires ChildSlot(n, bit) in t.held && ChildSlot(n, 1 - bit) !in t.held
    ensures Lift(t, n, bit).Linked()
  {
    LiftInverse(t, n, bit);
    var t', c := Lift(t, n, bit), t.held[ChildSlot(n, bit)];
    forall slot | slot in t'.held
      ensures t'.IsSlot(slot) && Fits(slot, t'.held[slot])
    {
      if slot == t.up[n] {
        assert t.IsSlot(slot) && Fits(slot, n);
      } else {
        assert slot in t.held && t.IsSlot(slot);
      }
    }
  }

  // ----- owners, entry lists and routes

  /** Each peer's entry list is exactly the set of nodes that route to it. */
  ghost predicate Lists(owners: map<TrieEntry, Peer?>, lists: map<Peer, seq<TrieEntry>>) {
    && (forall n :: n in owners && owners[n] != null ==> owners[n] in lists && n in lists[owners[n]])
    && (forall p, n :: p in lists && n in lists[p] ==> n in owners && owners[n] == p)
    && (forall p :: p in lists ==> NoDuplicates(lists[p]))
  }

  ghost predicate Routed(owners: map<TrieEntry, Peer?>, routes: map<Prefix, Peer>) {
    && (forall n :: n in owners && owners[n] != null ==> n.Key() in routes && routes[n.Key()] == owners[n])
    && (forall q :: q in routes ==> exists n :: n in owners && n.Key() == q && owners[n] == routes[q])
  }

  /** A node that comes to own its prefix for a peer. */
  lemma RoutingAssign(owners: map<TrieEntry, Peer?>, routes: map<Prefix, Peer>, n: TrieEntry, peer: Peer)
    requires Routed(owners, routes)
    requires forall m :: m in owners && m.Key() == n.Key() ==> m == n
    ensures Routed(owners[n := peer], routes[n.Key() := peer])
  {
    var owners', routes' := owners[n := peer], routes[n.Key() := peer];
    forall q | q in routes'
      ensures exists m :: m in owners' && m.Key() == q && owners'[m] == routes'[q]
    {
      if q == n.Key() {
        assert n in owners' && n.Key() == q && owners'[n] == routes'[q];
      } else {
        var m :| m in owners && m.Key() == q && owners[m] == routes[q];
        assert m in owners' && m.Key() == q && owners'[m] == routes'[q];
      }
    }
  }

  /** A node that gives up its prefix. */
  lemma RoutingRelease(owners: map<TrieEntry, Peer?>, routes: map<Prefix, Peer>, n: TrieEntry)
    requires Routed(owners, routes) && n in owners
    requires forall m :: m in owners && m.Key() == n.Key() ==> m == n
    ensures Routed(owners[n := null], routes - {n.Key()})
  {
    var owners', routes' := owners[n := null], routes - {n.Key()};
    forall q | q in routes'
      ensures exists m :: m in owners' && m.Key() == q && owners'[m] == routes'[q]
    {
      var m :| m in owners && m.Key() == q && owners[m] == routes[q];
      assert m in owners' && m.Key() == q && owners'[m] == routes'[q];
    }
  }

  /** Nodes without a peer come and go unseen. */
  lemma RoutingPeerless(owners: map<TrieEntry, Peer?>, routes: map<Prefix, Peer>, n: TrieEntry)
    requires Routed(owners, routes) && (n in owners ==> owners[n] == null)
    ensures Routed(owners[n := null], routes) && Routed(owners - {n}, routes)
  {
    forall q | q in routes
      ensures exists m :: m in owners - {n} && m.Key() == q && (owners - {n})[m] == routes[q]
      ensures exists m :: m in owners[n := null] && m.Key() == q && owners[n := null][m] == routes[q]
    {
      var m :| m in owners && m.Key() == q && owners[m] == routes[q];
      assert m in owners - {n} && m.Key() == q && (owners - {n})[m] == routes[q];
      assert m in owners[n := null] && m.Key() == q && owners[n := null][m] == routes[q];
    }
  }

  lemma ListsPeerless(owners: map<TrieEntry, Peer?>, lists: map<Peer, seq<TrieEntry>>, n: TrieEntry)
    requires Lists(owners, lists) && (n in owners ==> owners[n] == null)
    ensures Lists(owners[n := null], lists) && Lists(owners - {n}, lists)
  {
  }

  /** A node without an owner appended to a peer's list. */
  lemma ListsAssign(owners: map<TrieEntry, Peer?>, lists: map<Peer, seq<TrieEntry>>, n: TrieEntry, peer: Peer)
    requires Lists(owners, lists) && (n in owners ==> owners[n] == null)
    ensures var l := if peer in lists then lists[peer] else [];
            Lists(owners[n := peer], lists[peer := l + [n]])
  {
    var l := if peer in lists then lists[peer] else [];
    assert n !in l;
  }

  lemma ListsRelease(owners: map<TrieEntry, Peer?>, lists: map<Peer, seq<TrieEntry>>, n: TrieEntry, peer: Peer)
    requires Lists(owners, lists) && n in owners && owners[n] == peer
    ensures peer in lists && Lists(owners[n := null], lists[peer := Remove(lists[peer], n)])
  {
    var lists' := lists[peer := Remove(lists[peer], n)];
    RemoveNoDuplicates(lists[peer], n);
    forall m | m in owners
      ensures m in lists'[peer] <==> m in lists[peer] && m != n
    {
      RemoveMember(lists[peer], n, m);
    }
    forall p, m | p in lists' && m in lists'[p]
      ensures m in owners && m != n && owners[m] == p
    {
      RemoveMember(lists[peer], n, m);
    }
  }
}
