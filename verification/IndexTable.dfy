/** Keypairs, peers and the shared table of receiver indices. */
module Indices {
  import opened Bitwise
  import opened Options
  import opened Noise

  class Keypair {
    const send: Term
    const receive: Term
    const isInitiator: bool
    const localIndex: uint32
    const remoteIndex: uint32
    var sendNonce: uint64
    /** What the replay filter has accepted. */
    var accepted: set<uint64>

    constructor (keys: (Term, Term), isInitiator: bool, localIndex: uint32, remoteIndex: uint32)
      ensures send == keys.0 && receive == keys.1 && this.isInitiator == isInitiator
      ensures this.localIndex == localIndex && this.remoteIndex == remoteIndex && accepted == {} && sendNonce == 0
    {
      send, receive := keys.0, keys.1;
      this.isInitiator, this.localIndex, this.remoteIndex := isInitiator, localIndex, remoteIndex;
      accepted, sendNonce := {}, 0;
    }
  }

  /** An initiation that was accepted, the exchange it started, and the time. */
  datatype Heard = Heard(msg: MessageInitiation, transcript: Transcript, at: int)

  /** The record, and what it is about: the exchange, the response that ended it, and the
      initiations accepted so far. */
  datatype Record = Record(handshake: Handshake, transcript: Transcript, response: MessageResponse, heard: seq<Heard>)

  class Peer {
    var handshake: Handshake
    var current: Keypair?
    var previous: Keypair?
    var next: Keypair?
    var isRunning: bool
    ghost var transcript: Transcript
    ghost var response: MessageResponse
    ghost var heard: seq<Heard>

    constructor (remoteStatic: PublicKey, presharedKey: Term)
      ensures handshake.state == Zeroed && handshake.remoteStatic == remoteStatic
      ensures handshake.presharedKey == presharedKey
      ensures handshake.localIndex == 0 && current == previous == next == null && !isRunning
      ensures handshake.lastTimestamp == 0 && handshake.lastInitiationConsumption == 0 && heard == []
    {
      handshake := Handshake(Zeroed, Nothing, Nothing, presharedKey, 0, 0, 0, remoteStatic, LowOrder, 0, 0);
      current, previous, next, isRunning := null, null, null, false;
      heard := [];
    }

    function InUse(): Slots
      reads this
    {
      Slots(handshake.localIndex, current, previous, next)
    }

    ghost function AsRecord(): Record
      reads this
    {
      Record(handshake, transcript, response, heard)
    }
  }

  /** The indices a peer has a use for. */
  datatype Slots = Slots(pending: uint32, current: Keypair?, previous: Keypair?, next: Keypair?) {
    predicate Holds(kp: Keypair) {
      kp == current || kp == previous || kp == next
    }

    ghost predicate Distinct() {
      && (current != null ==> current != previous && current != next)
      && (previous != null ==> previous != next)
    }
  }

  /** What an index stands for: the peer's handshake, or one of its keypairs. */
  datatype Role = Pending | Live(keypair: Keypair)

  datatype Entry = Entry(peer: Peer, role: Role)

  type Table = map<uint32, Entry>

  ghost predicate Uses(s: Slots, i: uint32, role: Role) {
    match role
    case Pending => i != 0 && s.pending == i
    case Live(kp) => s.Holds(kp) && kp.localIndex == i
  }

  ghost predicate Has(table: Table, i: uint32, e: Entry) {
    i in table && table[i] == e
  }

  ghost predicate KeypairIn(table: Table, p: Peer, kp: Keypair?) {
    kp != null ==> kp.localIndex != 0 && Has(table, kp.localIndex, Entry(p, Live(kp)))
  }

  ghost predicate SlotsIn(table: Table, p: Peer, s: Slots) {
    && (s.pending != 0 ==> Has(table, s.pending, Entry(p, Pending)))
    && KeypairIn(table, p, s.current) && KeypairIn(table, p, s.previous) && KeypairIn(table, p, s.next)
    && s.Distinct()
  }

  /** The table holds exactly the indices in use: every pending handshake and every
      live keypair under its own index, and nothing else. */
  ghost predicate Exact(table: Table, view: map<Peer, Slots>) {
    && (forall p :: p in view ==> SlotsIn(table, p, view[p]))
    && (forall i :: i in table ==> i != 0 && table[i].peer in view && Uses(view[table[i].peer], i, table[i].role))
  }

  /** No index has two uses, be it of one peer or of two. */
  lemma IndicesDistinct(table: Table, view: map<Peer, Slots>, p: Peer, q: Peer, i: uint32, r: Role, s: Role)
    requires Exact(table, view) && p in view && q in view && Uses(view[p], i, r) && Uses(view[q], i, s)
    ensures p == q && r == s
  {
    assert Has(table, i, Entry(p, r)) && Has(table, i, Entry(q, s));
  }

  // ----- what the operations do to the table

  ghost function Without(table: Table, kp: Keypair?): Table {
    if kp == null then table else table - {kp.localIndex}
  }

  /** Changing one peer's entries to fit its new slots, and no other entry. */
  lemma OnePeerChanged(table: Table, table': Table, view: map<Peer, Slots>, p: Peer, s': Slots)
    requires Exact(table, view) && p in view && SlotsIn(table', p, s')
    requires forall i :: i in table' ==>
      i != 0 && (if table'[i].peer == p then Uses(s', i, table'[i].role) else Has(table, i, table'[i]))
    requires forall i :: i in table && table[i].peer != p ==> Has(table', i, table[i])
    ensures Exact(table', view[p := s'])
  {
    forall q | q in view && q != p
      ensures SlotsIn(table', q, view[q])
    {
      assert SlotsIn(table, q, view[q]);
    }
  }

  lemma DropPending(table: Table, view: map<Peer, Slots>, p: Peer)
    requires Exact(table, view) && p in view
    ensures Exact(table - {view[p].pending}, view[p := view[p].(pending := 0)])
  {
    var s := view[p];
    assert SlotsIn(table, p, s);
    OnePeerChanged(table, table - {s.pending}, view, p, s.(pending := 0));
  }

  /** Taking a free index keeps the table exact if and only if it is not zero, which
      stands for "none". */
  lemma AddPending(table: Table, view: map<Peer, Slots>, p: Peer, i: uint32)
    requires Exact(table, view) && p in view && view[p].pending == 0 && i !in table
    ensures Exact(table[i := Entry(p, Pending)], view[p := view[p].(pending := i)]) <==> i != 0
  {
    assert SlotsIn(table, p, view[p]);
    if i != 0 {
      OnePeerChanged(table, table[i := Entry(p, Pending)], view, p, view[p].(pending := i));
    } else {
      assert 0 in table[i := Entry(p, Pending)];
    }
  }

  /** A keypair leaves its slots, and the table. */
  lemma DropKeypair(table: Table, view: map<Peer, Slots>, p: Peer, kp: Keypair?, s': Slots)
    requires Exact(table, view) && p in view && s'.pending == view[p].pending && s'.Distinct()
    requires kp != null ==> view[p].Holds(kp)
    requires forall k: Keypair :: s'.Holds(k) <==> view[p].Holds(k) && k != kp
    ensures Exact(Without(table, kp), view[p := s'])
  {
    var s := view[p];
    assert SlotsIn(table, p, s);
    assert s'.current != null ==> s'.Holds(s'.current);
    assert s'.previous != null ==> s'.Holds(s'.previous);
    assert s'.next != null ==> s'.Holds(s'.next);
    OnePeerChanged(table, Without(table, kp), view, p, s');
  }

  /** The pending index becomes a keypair's. */
  lemma PlaceKeypair(table: Table, view: map<Peer, Slots>, p: Peer, kp: Keypair, s': Slots)
    requires Exact(table, view) && p in view && view[p].pending == kp.localIndex != 0 && s'.pending == 0
    requires s'.Distinct()
    requires forall k: Keypair :: s'.Holds(k) <==> view[p].Holds(k) || k == kp
    ensures Exact(table[kp.localIndex := Entry(p, Live(kp))], view[p := s'])
  {
    var s := view[p];
    assert SlotsIn(table, p, s);
    assert s'.current != null ==> s'.Holds(s'.current);
    assert s'.previous != null ==> s'.Holds(s'.previous);
    assert s'.next != null ==> s'.Holds(s'.next);
    OnePeerChanged(table, table[kp.localIndex := Entry(p, Live(kp))], view, p, s');
  }

  /** A new peer uses no index. */
  lemma NewPeerExact(table: Table, view: map<Peer, Slots>, p: Peer)
    requires Exact(table, view) && p !in view
    ensures Exact(table, view[p := Slots(0, null, null, null)])
  {
    assert forall q :: q in view ==> SlotsIn(table, q, view[q]);
  }

  lemma PendingIn(table: Table, view: map<Peer, Slots>, p: Peer)
    requires Exact(table, view) && p in view
    ensures view[p].pending != 0 ==> Has(table, view[p].pending, Entry(p, Pending))
  {
    assert SlotsIn(table, p, view[p]);
  }

  lemma NothingLeft(table: Table, view: map<Peer, Slots>, p: Peer)
    requires Exact(table, view) && p in view && view[p] == Slots(0, null, null, null)
    ensures forall i :: i in table ==> table[i].peer != p
  {
  }

  /** The slots after a session is derived. */
  function Rotated(s: Slots, kp: Keypair): Slots {
    if kp.isInitiator then
      if s.next != null then Slots(0, kp, s.next, null) else Slots(0, kp, s.current, null)
    else Slots(0, s.current, null, kp)
  }

  /** The keypairs a rotation retires. */
  function RetiredFirst(s: Slots, kp: Keypair): Keypair? {
    if kp.isInitiator then (if s.next != null then s.current else null) else s.next
  }

  lemma PlaceLast(table: Table, i: uint32, e: Entry, a: Keypair?, b: Keypair?)
    requires (a != null ==> a.localIndex != i) && (b != null ==> b.localIndex != i)
    ensures Without(Without(table, a), b)[i := e] == Without(Without(table[i := e], a), b)
  {
  }

  lemma Rotation(table: Table, view: map<Peer, Slots>, p: Peer, kp: Keypair)
    requires Exact(table, view) && p in view && view[p].pending == kp.localIndex != 0 && !view[p].Holds(kp)
    ensures var s := view[p]; var swapped := table[kp.localIndex := Entry(p, Live(kp))];
      Exact(Without(Without(swapped, RetiredFirst(s, kp)), s.previous), view[p := Rotated(s, kp)])
  {
    var s := view[p];
    var first := RetiredFirst(s, kp);
    assert SlotsIn(table, p, s);
    var s1 := if first == null then s else if kp.isInitiator then s.(current := null) else s.(next := null);
    DropKeypair(table, view, p, first, s1);
    var table1, view1 := Without(table, first), view[p := s1];
    var s2 := s1.(previous := null);
    DropKeypair(table1, view1, p, s.previous, s2);
    var table2, view2 := Without(table1, s.previous), view1[p := s2];
    PlaceKeypair(table2, view2, p, kp, Rotated(s, kp));
    assert view2[p := Rotated(s, kp)] == view[p := Rotated(s, kp)];
    PlaceLast(table, kp.localIndex, Entry(p, Live(kp)), first, s.previous);
  }

  lemma Confirmation(table: Table, view: map<Peer, Slots>, p: Peer, kp: Keypair)
    requires Exact(table, view) && p in view && view[p].next == kp
    ensures var s := view[p];
      Exact(Without(table, s.previous), view[p := s.(previous := s.current, current := kp, next := null)])
  {
    var s := view[p];
    assert SlotsIn(table, p, s);
    DropKeypair(table, view, p, s.previous, s.(previous := s.current, current := kp, next := null));
  }

  lemma AllKeypairsDropped(table: Table, view: map<Peer, Slots>, p: Peer)
    requires Exact(table, view) && p in view
    ensures var s := view[p];
      Exact(Without(Without(Without(table, s.previous), s.current), s.next),
        view[p := Slots(s.pending, null, null, null)])
  {
    var s := view[p];
    assert SlotsIn(table, p, s);
    var s1, s2, s3 := s.(previous := null), Slots(s.pending, null, null, s.next), Slots(s.pending, null, null, null);
    DropKeypair(table, view, p, s.previous, s1);
    DropKeypair(Without(table, s.previous), view[p := s1], p, s.current, s2);
    DropKeypair(Without(Without(table, s.previous), s.current), view[p := s1][p := s2], p, s.next, s3);
    assert view[p := s1][p := s2][p := s3] == view[p := s3];
  }

  // ----- the table itself

  class IndexTable {
    var table: Table

    constructor ()
      ensures table == map[]
    {
      table := map[];
    }

    method Delete(index: uint32)
      modifies this
      ensures table == old(table) - {index}
    {
      table := table - {index};
    }

    method DeleteKeypair(kp: Keypair?)
      modifies this
      ensures table == Without(old(table), kp)
    {
      if kp != null {
        Delete(kp.localIndex);
      }
    }

    method SwapIndexForKeypair(index: uint32, kp: Keypair)
      modifies this
      ensures table == if index in old(table) then old(table)[index := Entry(old(table)[index].peer, Live(kp))]
        else old(table)
    {
      if index in table {
        table := table[index := Entry(table[index].peer, Live(kp))];
      }
    }

    /** Draws until an index is free: some draw is. */
    method NewIndexForHandshake(peer: Peer, draws: seq<uint32>) returns (index: uint32)
      requires exists i :: 0 <= i < |draws| && draws[i] !in table
      modifies this
      ensures index !in old(table) && table == old(table)[index := Entry(peer, Pending)]
      ensures exists i :: 0 <= i < |draws| && draws[i] == index && forall j :: 0 <= j < i ==> draws[j] in old(table)
    {
      var i := 0;
      while draws[i] in table
        invariant 0 <= i < |draws| && forall j :: 0 <= j < i ==> draws[j] in table
        invariant exists k :: i <= k < |draws| && draws[k] !in table
        decreases |draws| - i
      {
        i := i + 1;
      }
      index := draws[i];
      table := table[index := Entry(peer, Pending)];
    }

    method Lookup(id: uint32) returns (found: Option<Entry>)
      ensures found == if id in table then Some(table[id]) else None
    {
      found := if id in table then Some(table[id]) else None;
    }
  }
}
