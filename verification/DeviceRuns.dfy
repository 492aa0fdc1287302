/** Whole runs of devices: any sequence of operations, whatever messages arrive and
    whatever is drawn. What a device is given to read is arbitrary, so that messages may
    be lost, repeated, reordered and forged. */
module DeviceRuns {
  import opened Bitwise
  import opened Noise
  import opened Indices
  import opened Exchanges
  import opened Device

  /** What a device does next; `who` counts the peers ever added, `which` the keypairs ever made. */
  datatype Operation =
    | AddPeer(key: PublicKey, presharedKey: Term)
    | DropPeer(key: PublicKey)
    | StartPeer(who: nat)
    | StopPeer(who: nat)
    | Shut
    | Initiate(who: nat, ephemeral: nat, stamp: nat, draws: seq<uint32>)
    | TakeInitiation(initiation: MessageInitiation, now: int)
    | Respond(who: nat, ephemeral: nat, draws: seq<uint32>)
    | TakeResponse(response: MessageResponse)
    | Begin(who: nat)
    | Receive(who: nat, which: nat, counter: uint64, authentic: bool)
    | Expire(who: nat)
    | Forget(who: nat)

  /** The device is valid, and knows the peers and keypairs there are. */
  ghost predicate Running(d: Device, roster: seq<Peer>, kit: seq<Keypair>)
    reads d, d.indexTable, d.view.Keys
  {
    && d.Valid() && (forall i :: 0 <= i < |roster| ==> roster[i] in d.view)
    && (forall i :: 0 <= i < |kit| ==> kit[i] in d.history.made)
  }

  /** The device has moved on: new peers and keypairs are new objects, and nothing recorded is lost. */
  twostate predicate Moved(d: Device)
    reads d, d.view.Keys
  {
    && old(d.view.Keys) <= d.view.Keys && fresh(d.view.Keys - old(d.view.Keys))
    && fresh(d.history.made.Keys - old(d.history.made.Keys)) && Grows(old(d.history), d.history)
    && forall p :: p in old(d.view) ==> Onward(p)
  }

  /** The peer is who it was, and has forgotten nothing it heard. */
  twostate predicate Onward(p: Peer)
    reads p
  {
    p.handshake.remoteStatic == old(p.handshake.remoteStatic) && old(p.heard) <= p.heard
  }

  /** The peer has the same keypairs in the same slots. */
  ghost predicate SameKeypairs(view: map<Peer, Slots>, view': map<Peer, Slots>, p: Peer) {
    && p in view && p in view' && view'[p].current == view[p].current
    && view'[p].previous == view[p].previous && view'[p].next == view[p].next
  }

  /** The operation moves keypairs of this peer to other slots, or deletes them. */
  predicate Rotates(op: Operation, roster: seq<Peer>, p: Peer)
    reads p
  {
    || (op.DropPeer? && op.key == p.handshake.remoteStatic)
    || (OfPeer(op) && op.who < |roster| && roster[op.who] == p && Moves(op, p))
  }

  /** The draws serve: none is zero, and some is free. */
  method Serves(d: Device, draws: seq<uint32>) returns (ok: bool)
    ensures ok <==> d.GoodDraws(draws)
  {
    var free := exists i :: 0 <= i < |draws| && draws[i] !in d.indexTable.table;
    ok := free && forall i :: 0 <= i < |draws| ==> draws[i] != 0;
  }

  /** A peer is added or removed, or the device closed. */
  method Manage(d: Device, op: Operation) returns (peer: Peer?)
    requires d.Valid() && (op.AddPeer? || op.DropPeer? || op.Shut?)
    modifies d, d.indexTable, d.view.Keys
    ensures d.Valid() && Moved(d) && (peer != null ==> peer in d.view)
    ensures forall p :: p in old(d.view) && !(op.DropPeer? && op.key == old(p.handshake.remoteStatic)) ==>
      SameKeypairs(old(d.view), d.view, p)
  {
    hide Device.Valid;
    peer := null;
    if op.AddPeer? {
      peer := d.NewPeer(op.key, op.presharedKey);
    } else if op.DropPeer? {
      d.RemovePeer(op.key);
    } else {
      d.Close();
    }
  }

  /** A peer is started or stopped, or its keys given up. */
  method Tend(d: Device, p: Peer, op: Operation)
    requires d.Valid() && p in d.view && (op.StartPeer? || op.StopPeer? || op.Expire? || op.Forget?)
    modifies d, d.indexTable, d.view.Keys, d.history.made.Keys
    ensures d.Valid() && Moved(d)
    ensures forall q :: q in old(d.view) && (q != p || op.StartPeer? || op.Expire?) ==>
      SameKeypairs(old(d.view), d.view, q)
  {
    hide Device.Valid;
    if op.StartPeer? {
      d.Start(p);
    } else if op.StopPeer? {
      d.Stop(p);
    } else if op.Forget? {
      d.ZeroAndFlushAll(p);
    } else {
      MadeHere(d, p);
      d.ExpireCurrentKeypairs(p);
    }
  }

  lemma MadeHere(d: Device, p: Peer)
    requires d.Valid() && p in d.view
    ensures p.current != null ==> p.current in d.history.made
    ensures p.next != null ==> p.next in d.history.made
  {
    hide Exact, RecordsOk, Ledger, KeysOk, AllHeard;
    assert SlotOk(d.view[p], d.confirmed, d.history.made.Keys);
  }

  /** A handshake message is made, if the draws serve. */
  method Send(d: Device, p: Peer, op: Operation)
    requires d.Valid() && p in d.view && (op.Initiate? || op.Respond?)
    modifies d, d.indexTable, d.view.Keys
    ensures d.Valid() && Moved(d) && forall q :: q in old(d.view) ==> SameKeypairs(old(d.view), d.view, q)
  {
    hide Device.Valid, IsInitiationOf, IsResponseOf;
    var ok := Serves(d, op.draws);
    if ok {
      if op.Initiate? {
        var _ := d.CreateMessageInitiation(p, op.ephemeral, op.stamp, op.draws);
      } else {
        var _ := d.CreateMessageResponse(p, op.ephemeral, op.draws);
      }
    }
  }

  /** A handshake message arrives. */
  method Take(d: Device, op: Operation)
    requires d.Valid() && (op.TakeInitiation? || op.TakeResponse?)
    modifies d, d.indexTable, d.view.Keys
    ensures d.Valid() && Moved(d) && d.view == old(d.view)
  {
    hide Exact, Device.Kept, Device.Tied, IsInitiationOf, IsResponseOf;
    if op.TakeInitiation? {
      var _, _ := d.ConsumeMessageInitiation(op.initiation, op.now);
    } else {
      var _, _ := d.ConsumeMessageResponse(op.response);
    }
  }

  /** A session is derived, if there is a completed exchange. */
  method Derive(d: Device, p: Peer) returns (keypair: Keypair?)
    requires d.Valid() && p in d.view
    modifies d, d.indexTable, d.view.Keys
    ensures d.Valid() && Moved(d) && (keypair != null ==> keypair in d.history.made)
    ensures forall q :: q in old(d.view) && q != p ==> SameKeypairs(old(d.view), d.view, q)
    ensures old(p.handshake.state) == ResponseConsumed ==>
      && keypair != null && p.current == keypair && p.next == null
      && p.previous == if old(p.next) != null then old(p.next) else old(p.current)
  {
    hide Device.Valid, SessionKeys;
    keypair := d.BeginSymmetricSession(p);
  }

  /** An operation that is about one peer. */
  predicate OfPeer(op: Operation) {
    !op.AddPeer? && !op.DropPeer? && !op.Shut? && !op.TakeInitiation? && !op.TakeResponse?
  }

  /** The operation moves keypairs of the peer it is about, or deletes them. */
  predicate Moves(op: Operation, p: Peer)
    reads p
  {
    op.Begin? || op.Forget? || op.StopPeer? || (op.Receive? && p.next != null)
  }

  /** A packet arrives, if there is such a keypair. */
  method Hear(d: Device, p: Peer, op: Operation, kit: seq<Keypair>)
    requires d.Valid() && p in d.view && op.Receive? && forall i :: 0 <= i < |kit| ==> kit[i] in d.history.made
    modifies d, d.indexTable, d.view.Keys, d.history.made.Keys
    ensures d.Valid() && Moved(d) && d.history == old(d.history)
    ensures forall q :: q in old(d.view) && (q != p || old(p.next) == null) ==> SameKeypairs(old(d.view), d.view, q)
  {
    hide Device.Valid;
    if op.which < |kit| {
      var _ := d.ReceivePacket(p, kit[op.which], op.counter, op.authentic);
    }
  }

  /** One operation about a peer. */
  method Serve(d: Device, p: Peer, op: Operation, kit: seq<Keypair>) returns (kit': seq<Keypair>)
    requires d.Valid() && p in d.view && OfPeer(op) && forall i :: 0 <= i < |kit| ==> kit[i] in d.history.made
    modifies d, d.indexTable, d.view.Keys, d.history.made.Keys
    ensures d.Valid() && Moved(d) && forall i :: 0 <= i < |kit'| ==> kit'[i] in d.history.made
    ensures forall q :: q in old(d.view) && (q != p || old(!Moves(op, p))) ==> SameKeypairs(old(d.view), d.view, q)
  {
    hide Device.Valid, SameKeypairs;
    kit' := kit;
    if op.Initiate? || op.Respond? {
      Send(d, p, op);
    } else if op.Begin? {
      var keypair := Derive(d, p);
      if keypair != null {
        kit' := kit + [keypair];
      }
    } else if op.Receive? {
      Hear(d, p, op, kit);
    } else {
      Tend(d, p, op);
    }
  }

  /** One operation, if there is such a peer and such a keypair. */
  method Perform(d: Device, op: Operation, roster: seq<Peer>, kit: seq<Keypair>) returns (roster': seq<Peer>,
      kit': seq<Keypair>)
    requires Running(d, roster, kit)
    modifies d, d.indexTable, d.view.Keys, d.history.made.Keys
    ensures Running(d, roster', kit') && Moved(d)
    ensures forall p :: p in old(d.view) && old(!Rotates(op, roster, p)) ==> SameKeypairs(old(d.view), d.view, p)
  {
    hide Device.Valid;
    roster', kit' := roster, kit;
    if OfPeer(op) {
      if op.who < |roster| {
        kit' := Serve(d, roster[op.who], op, kit);
      }
    } else if op.TakeInitiation? || op.TakeResponse? {
      Take(d, op);
    } else {
      var peer := Manage(d, op);
      if peer != null {
        roster' := roster + [peer];
      }
    }
  }

  // ----- one device

  /** The initiations accepted from a peer are spaced, and no message is among them twice. */
  ghost predicate WellHeard(p: Peer)
    reads p
  {
    Spaced(p.heard) && forall i, j :: 0 <= i < j < |p.heard| ==> p.heard[i].msg != p.heard[j].msg
  }

  lemma AllWellHeard(d: Device)
    requires d.Valid()
    ensures forall p :: p in d.view ==> WellHeard(p)
  {
    hide Exact, RecordsOk, Ledger, SlotsOk, KeysOk, IsInitiationOf, Spaced;
    forall p | p in d.view ensures WellHeard(p) {
      var r := d.records[p];
      assert r == p.AsRecord() && HeardOk(r);
      forall i, j | 0 <= i < j < |p.heard| ensures p.heard[i].msg != p.heard[j].msg {
        HeardOnce(r, i, j);
      }
    }
  }

  /** In every reachable state the device is valid: the table holds exactly the
      indices in use, all distinct; every record follows its exchange; what sends was
      confirmed; no exchange gave two keypairs. Of any two initiations accepted from a peer
      the later has a later timestamp, and came more than twenty milliseconds after the
      earlier; none was accepted twice. */
  method Run(secret: nat, ops: seq<Operation>) returns (d: Device)
    ensures fresh(d) && d.secret == secret && d.Valid()
    ensures forall k, l :: k in d.history.made && l in d.history.made && k != l ==>
      d.history.made[k].exchange != d.history.made[l].exchange
    ensures forall p :: p in d.view ==> WellHeard(p)
  {
    hide Running, Device.Valid;
    d := new Device(secret);
    var roster: seq<Peer>, kit: seq<Keypair> := [], [];
    StartsRunning(d);
    for i := 0 to |ops|
      invariant fresh(d) && fresh(d.indexTable) && fresh(d.view.Keys) && fresh(d.history.made.Keys)
      invariant d.secret == secret && Running(d, roster, kit)
    {
      roster, kit := Perform(d, ops[i], roster, kit);
    }
    RunningIsValid(d, roster, kit);
    OneEach(d);
    AllWellHeard(d);
  }

  lemma OneEach(d: Device)
    requires d.Valid()
    ensures forall k, l :: k in d.history.made && l in d.history.made && k != l ==>
      d.history.made[k].exchange != d.history.made[l].exchange
  {
    hide Exact, RecordsOk, SlotsOk, KeysOk, Device.Tied, SessionOk;
  }

  /** A session is derived as initiator, and then anything happens until keypairs of that
      peer are rotated or deleted again: all that time the keypair that was waiting, or else
      the one that was sending, is the previous one, and in the table under its index. */
  method Rekey(d: Device, roster: seq<Peer>, kit: seq<Keypair>, p: Peer, ops: seq<Operation>)
    returns (roster': seq<Peer>, kit': seq<Keypair>, done: nat)
    requires Running(d, roster, kit) && p in d.view && p.handshake.state == ResponseConsumed
    modifies d, d.indexTable, d.view.Keys, d.history.made.Keys
    ensures Running(d, roster', kit') && p in d.view && done <= |ops|
    ensures done < |ops| ==> Rotates(ops[done], roster', p)
    ensures p.previous == if old(p.next) != null then old(p.next) else old(p.current)
    ensures p.previous != null ==> Has(d.indexTable.table, p.previous.localIndex, Entry(p, Live(p.previous)))
  {
    hide Running, Device.Valid, Rotates;
    FirstRekey(d, roster, kit, p);
    roster', kit', done := Proceed(d, roster, kit, p, ops);
    Shown(d, roster', kit', p);
  }

  method FirstRekey(d: Device, roster: seq<Peer>, kit: seq<Keypair>, p: Peer)
    requires Running(d, roster, kit) && p in d.view && p.handshake.state == ResponseConsumed
    modifies d, d.indexTable, d.view.Keys
    ensures Running(d, roster, kit) && Moved(d)
    ensures p.previous == if old(p.next) != null then old(p.next) else old(p.current)
  {
    hide Device.Valid;
    var _ := Derive(d, p);
  }

  /** Anything happens, until keypairs of the peer are rotated or deleted. */
  method Proceed(d: Device, roster: seq<Peer>, kit: seq<Keypair>, p: Peer, ops: seq<Operation>)
    returns (roster': seq<Peer>, kit': seq<Keypair>, done: nat)
    requires Running(d, roster, kit) && p in d.view
    modifies d, d.indexTable, d.view.Keys, d.history.made.Keys
    ensures Running(d, roster', kit') && p in d.view && done <= |ops| && p.previous == old(p.previous)
    ensures done < |ops| ==> Rotates(ops[done], roster', p)
  {
    hide Running, Device.Valid, Rotates;
    roster', kit', done := roster, kit, 0;
    while done < |ops|
      invariant done <= |ops| && Running(d, roster', kit') && p in d.view && p.previous == old(p.previous)
      invariant fresh(d.view.Keys - old(d.view.Keys)) && fresh(d.history.made.Keys - old(d.history.made.Keys))
    {
      if Rotates(ops[done], roster', p) {
        return;
      }
      Shown(d, roster', kit', p);
      roster', kit' := Perform(d, ops[done], roster', kit');
      Shown(d, roster', kit', p);
      done := done + 1;
    }
  }

  /** The peer's keypairs are those the device knows, and in its table. */
  lemma Shown(d: Device, roster: seq<Peer>, kit: seq<Keypair>, p: Peer)
    requires Running(d, roster, kit) && p in d.view
    ensures d.view[p] == p.InUse()
    ensures p.previous != null ==> Has(d.indexTable.table, p.previous.localIndex, Entry(p, Live(p.previous)))
  {
    hide Device.Kept;
    assert SlotsIn(d.indexTable.table, p, d.view[p]);
  }

  // ----- several devices

  /** One device made this keypair by taking the response that the other created to make
      that one; the indices, which are not in its box, may have been altered on the way. */
  ghost predicate FromOneResponse(a: Device, k: Keypair, b: Device, l: Keypair)
    reads a, b
  {
    && k in a.history.made && l in b.history.made && k.isInitiator && !l.isInitiator
    && a.history.made[k].response.empty == b.history.made[l].response.empty
  }

  /** Each has the other's index exactly when it arrived as it was sent. */
  ghost predicate SameIndices(a: Device, k: Keypair, b: Device, l: Keypair)
    requires k in a.history.made && l in b.history.made
    reads a, b
  {
    && (k.localIndex == l.remoteIndex <==>
          a.history.made[k].response.receiver == b.history.made[l].response.receiver)
    && (k.remoteIndex == l.localIndex <==> a.history.made[k].response.sender == b.history.made[l].response.sender)
  }

  /** The keypairs of the two devices that come of one response cross: each side sends with what the
      other receives with, and each meant the other; each has the index the other gave exactly
      when it arrived as it was sent. */
  ghost predicate Agree(a: Device, b: Device)
    reads a, b
  {
    forall k, l :: k in a.history.made && l in b.history.made && FromOneResponse(a, k, b, l) ==>
      && k.send == l.receive && k.receive == l.send && SameIndices(a, k, b, l)
      && a.history.made[k].transcript == b.history.made[l].transcript
      && a.history.made[k].transcript.initiator == a.secret && a.history.made[k].transcript.responder == b.secret
  }

  /** A response whose box b sealed is taken by a only in the exchange in which b sealed it. */
  ghost predicate Meant(a: Device, b: Device)
    reads a, b
  {
    forall k, msg | k in a.history.made && k.isInitiator && msg in b.history.created
      && msg.empty == a.history.made[k].response.empty ::
      b.history.created[msg] == a.history.made[k].transcript && a.history.made[k].transcript.responder == b.secret
  }

  lemma AllAgree(a: Device, b: Device)
    requires a.Valid() && b.Valid()
    ensures Agree(a, b) && Meant(a, b)
  {
    hide Exact, RecordsOk, SlotsOk, KeysOk, Ledger, Device.Tied;
    forall k, l | k in a.history.made && l in b.history.made && FromOneResponse(a, k, b, l)
      ensures k.send == l.receive && k.receive == l.send && SameIndices(a, k, b, l)
      ensures a.history.made[k].transcript == b.history.made[l].transcript
      ensures a.history.made[k].transcript.initiator == a.secret && a.history.made[k].transcript.responder == b.secret
    {
      SessionsCross(a.history, a.secret, k, b.history, b.secret, l);
    }
    forall k, msg | k in a.history.made && k.isInitiator && msg in b.history.created
      && msg.empty == a.history.made[k].response.empty
      ensures b.history.created[msg] == a.history.made[k].transcript
      ensures a.history.made[k].transcript.responder == b.secret
    {
      AcceptedFrom(a.history, a.secret, k, b.history, b.secret, msg);
    }
  }

  /** All devices are running, and no two share an object. */
  ghost predicate AllRunning(ds: seq<Device>, rosters: seq<seq<Peer>>, kits: seq<seq<Keypair>>)
    reads ds, set i | 0 <= i < |ds| :: ds[i].indexTable, set i, p | 0 <= i < |ds| && p in ds[i].view :: p
  {
    && |ds| == |rosters| == |kits|
    && (forall i :: 0 <= i < |ds| ==> Running(ds[i], rosters[i], kits[i]))
    && (forall i, j :: 0 <= i < |ds| && 0 <= j < |ds| && i != j ==> Apart(ds[i], ds[j]))
  }

  /** One device does something; the others stay as they are. */
  method Turn(ds: seq<Device>, i: nat, op: Operation, rosters: seq<seq<Peer>>, kits: seq<seq<Keypair>>)
    returns (rosters': seq<seq<Peer>>, kits': seq<seq<Keypair>>)
    requires i < |ds| && AllRunning(ds, rosters, kits)
    modifies ds[i], ds[i].indexTable, ds[i].view.Keys, ds[i].history.made.Keys
    ensures AllRunning(ds, rosters', kits') && Moved(ds[i])
    ensures forall j :: 0 <= j < |ds| && j != i ==> unchanged(ds[j])
  {
    hide Running;
    var d := ds[i];
    var roster, kit := Perform(d, op, rosters[i], kits[i]);
    rosters', kits' := rosters[i := roster], kits[i := kit];
    forall j | 0 <= j < |ds| && j != i
      ensures Running(ds[j], rosters'[j], kits'[j]) && Apart(d, ds[j]) && Apart(ds[j], d) && unchanged(ds[j])
    {
      assert old(Apart(ds[i], ds[j]));
      assert old(Running(ds[j], rosters[j], kits[j]));
    }
    forall j, l | 0 <= j < |ds| && 0 <= l < |ds| && j != l ensures Apart(ds[j], ds[l]) {
      if j != i && l != i {
        assert old(Apart(ds[j], ds[l]));
      }
    }
  }

  /** However the devices take turns, and whatever they are given to read: all are valid
      in every reachable state, and every two agree. */
  method RunNetwork(secrets: seq<nat>, turns: seq<(nat, Operation)>) returns (ds: seq<Device>)
    ensures |ds| == |secrets| && forall i :: 0 <= i < |ds| ==>
      fresh(ds[i]) && ds[i].secret == secrets[i] && ds[i].Valid()
    ensures forall i, j :: 0 <= i < |ds| && 0 <= j < |ds| ==> Agree(ds[i], ds[j]) && Meant(ds[i], ds[j])
  {
    hide Running;
    ds := SetUp(secrets);
    var rosters: seq<seq<Peer>>, kits: seq<seq<Keypair>> := seq(|ds|, _ => []), seq(|ds|, _ => []);
    for t := 0 to |turns|
      invariant AllRunning(ds, rosters, kits) && AllFresh(ds) && |ds| == |secrets|
      invariant forall i :: 0 <= i < |ds| ==> ds[i].secret == secrets[i]
    {
      var i := turns[t].0;
      if i < |ds| {
        assert IsFresh(ds[i]);
        rosters, kits := Turn(ds, i, turns[t].1, rosters, kits);
        assert IsFresh(ds[i]);
        assert forall j :: 0 <= j < |ds| && j != i ==> IsFresh(ds[j]);
      }
    }
    forall i | 0 <= i < |ds| ensures ds[i].Valid() {
      RunningIsValid(ds[i], rosters[i], kits[i]);
    }
    forall i, j | 0 <= i < |ds| && 0 <= j < |ds| ensures Agree(ds[i], ds[j]) && Meant(ds[i], ds[j]) {
      AllAgree(ds[i], ds[j]);
    }
  }

  twostate predicate AllFresh(new ds: seq<Device>)
    reads ds
  {
    forall i :: 0 <= i < |ds| ==> IsFresh(ds[i])
  }

  twostate predicate IsFresh(new d: Device)
    reads d
  {
    fresh(d) && fresh(d.indexTable) && fresh(d.view.Keys) && fresh(d.history.made.Keys)
  }

  lemma RunningIsValid(d: Device, roster: seq<Peer>, kit: seq<Keypair>)
    requires Running(d, roster, kit)
    ensures d.Valid()
  {
  }

  lemma StartsRunning(d: Device)
    requires d.Valid()
    ensures Running(d, [], [])
  {
  }

  /** A device as it is set up. */
  ghost predicate New(d: Device)
    reads d, d.indexTable, d.view.Keys
  {
    d.Valid() && d.view == map[] && d.history == NO_HISTORY
  }

  lemma AllNew(ds: seq<Device>)
    requires forall i :: 0 <= i < |ds| ==> New(ds[i])
    requires forall i, j :: 0 <= i < j < |ds| ==> ds[i] != ds[j] && ds[i].indexTable != ds[j].indexTable
    ensures AllRunning(ds, seq(|ds|, _ => []), seq(|ds|, _ => []))
  {
    hide Device.Valid, Running;
    forall i | 0 <= i < |ds| ensures Running(ds[i], [], []) {
      StartsRunning(ds[i]);
    }
  }

  method SetUp(secrets: seq<nat>) returns (ds: seq<Device>)
    ensures AllRunning(ds, seq(|ds|, _ => []), seq(|ds|, _ => [])) && AllFresh(ds) && |ds| == |secrets|
    ensures forall i :: 0 <= i < |ds| ==> ds[i].secret == secrets[i]
  {
    hide Device.Valid, AllRunning;
    ds := [];
    for i := 0 to |secrets|
      invariant |ds| == i && forall j :: 0 <= j < i ==>
        fresh(ds[j]) && fresh(ds[j].indexTable) && New(ds[j]) && ds[j].secret == secrets[j]
      invariant forall j, l :: 0 <= j < l < i ==> ds[j] != ds[l] && ds[j].indexTable != ds[l].indexTable
    {
      var d := new Device(secrets[i]);
      ds := ds + [d];
    }
    AllNew(ds);
  }
}
