/** A device with its peers: handshakes, sessions and the rotation of keypairs. Each
    operation that the locks make atomic is one method. */
module Device {
  import opened Bitwise
  import opened Options
  import opened Noise
  import opened Indices
  import opened Exchanges
  import Replay
  import SendNonce

  const MAX_PEERS := 0x1_0000
  const REJECT_AFTER_MESSAGES := SendNonce.REJECT_AFTER_MESSAGES

  class Device {
    const secret: nat
    const indexTable: IndexTable
    var peers: map<PublicKey, Peer>
    var isClosed: bool
    /** The indices each peer ever added has in use, its handshake record, the keypairs
        under which a packet was received that was authentic and new, and the exchanges. */
    ghost var view: map<Peer, Slots>
    ghost var records: map<Peer, Record>
    ghost var confirmed: set<Keypair>
    ghost var history: History

    /** The ghost state shows the peers as they are. */
    ghost predicate Tied()
      reads this`view, this`records, view.Keys
    {
      view.Keys == records.Keys && forall p :: p in view ==> view[p] == p.InUse() && records[p] == p.AsRecord()
    }

    /** The same, but for one peer. */
    ghost predicate TiedBut(q: Peer)
      reads this`view, this`records, view.Keys - {q}
    {
      view.Keys == records.Keys && forall p :: p in view && p != q ==>
        view[p] == p.InUse() && records[p] == p.AsRecord()
    }

    /** The table holds exactly the indices in use; every record follows its exchange; what
        sends was confirmed, or made by the side that heard the other first; no exchange
        gave two keypairs, and each keypair has the keys of its exchange. */
    ghost predicate Valid()
      reads this, indexTable, view.Keys
    {
      && Tied() && Exact(indexTable.table, view) && Kept()
    }

    ghost predicate Kept()
      reads this
    {
      && KeysOk(peers, records) && AllHeard(records) && RecordsOk(records, history.active, secret)
      && Ledger(history, secret) && SlotsOk(view, confirmed, history.made.Keys)
    }

    /** The peer is who it was, and has heard no initiation. */
    twostate predicate Keeps(p: Peer)
      reads p
    {
      && p.handshake.remoteStatic == old(p.handshake.remoteStatic)
      && p.handshake.presharedKey == old(p.handshake.presharedKey) && p.heard == old(p.heard)
    }

    /** A draw of indices: none is the sentinel zero, and some is free. */
    ghost predicate GoodDraws(draws: seq<uint32>)
      reads indexTable
    {
      && (forall i :: 0 <= i < |draws| ==> draws[i] != 0)
      && exists i :: 0 <= i < |draws| && draws[i] !in indexTable.table
    }

    constructor (secret: nat)
      ensures Valid() && this.secret == secret && peers == map[] && view == map[] && fresh(indexTable) && !isClosed
      ensures history == NO_HISTORY
    {
      this.secret := secret;
      indexTable := new IndexTable();
      peers, isClosed := map[], false;
      view, records, confirmed, history := map[], map[], {}, NO_HISTORY;
    }

    // ----- peers

    method NewPeer(remoteStatic: PublicKey, presharedKey: Term) returns (peer: Peer?)
      requires Valid()
      modifies this`peers, this`view, this`records
      ensures Valid() && confirmed == old(confirmed) && history == old(history)
      ensures peer == null <==> isClosed || |old(peers)| >= MAX_PEERS || remoteStatic in old(peers)
      ensures peer == null ==> peers == old(peers) && view == old(view)
      ensures peer != null ==>
        && fresh(peer) && peers == old(peers)[remoteStatic := peer]
        && view == old(view)[peer := Slots(0, null, null, null)]
        && !peer.isRunning && peer.handshake.presharedKey == presharedKey
    {
      hide Exact, RecordsOk, SlotsOk, Ledger, KeysOk, AllHeard, Tied;
      if isClosed || |peers| >= MAX_PEERS || remoteStatic in peers {
        return null;
      }
      var p := new Peer(remoteStatic, presharedKey);
      ghost var was := records;
      NewPeerExact(indexTable.table, view, p);
      NewRecord(records, history, p, p.AsRecord(), secret);
      SlotUpdate(view, confirmed, confirmed, history.made.Keys, history.made.Keys, p, p.InUse());
      KeysWith(peers, was, remoteStatic, p, p.AsRecord());
      Enrol(p);
      peers := peers[remoteStatic := p];
      peer := p;
    }

    ghost method Enrol(p: Peer)
      requires Tied() && p !in view
      modifies this`view, this`records
      ensures Tied() && view == old(view)[p := p.InUse()] && records == old(records)[p := p.AsRecord()]
    {
      view, records := view[p := p.InUse()], records[p := p.AsRecord()];
    }

    method Start(peer: Peer)
      requires Valid() && peer in view
      modifies peer`isRunning
      ensures Valid() && (peer.isRunning <==> !isClosed || old(peer.isRunning))
    {
      hide Exact, Kept;
      if !isClosed {
        peer.isRunning := true;
      }
    }

    method Stop(peer: Peer)
      requires Valid() && peer in view
      modifies indexTable, peer, this`view, this`records, this`history
      ensures Valid() && peers == old(peers) && confirmed == old(confirmed) && Grows(old(history), history)
      ensures !peer.isRunning && history.made == old(history).made && Keeps(peer)
      ensures view == if old(peer.isRunning) then old(view)[peer := Slots(0, null, null, null)] else old(view)
      ensures old(peer.isRunning) ==> forall i :: i in indexTable.table ==> indexTable.table[i].peer != peer
    {
      hide Exact, Kept;
      if peer.isRunning {
        peer.isRunning := false;
        ZeroAndFlushAll(peer);
      }
    }

    /** The peer does not run, and if it did, it has no keypair and no handshake left. */
    twostate predicate Emptied(p: Peer)
      reads p, this`view
    {
      && p in old(view) && !p.isRunning
      && view == if old(p.isRunning) then old(view)[p := Slots(0, null, null, null)] else old(view)
    }

    /** Stops the peer and forgets its key; what still runs for it may find it stopped. */
    method RemovePeer(key: PublicKey)
      requires Valid()
      modifies indexTable, view.Keys, this`peers, this`view, this`records, this`history
      ensures Valid() && peers == old(peers) - {key} && confirmed == old(confirmed) && Grows(old(history), history)
      ensures history.made == old(history).made && forall p :: p in old(view) ==> Keeps(p)
      ensures if key in old(peers) then Emptied(old(peers)[key]) else view == old(view)
      ensures key in old(peers) ==> old(peers[key].handshake.remoteStatic) == key
    {
      hide Exact, Kept, Valid;
      if key in peers {
        PeerKnown(key);
        Stop(peers[key]);
        ForgetKey(key);
      }
    }

    lemma PeerKnown(key: PublicKey)
      requires Valid() && key in peers
      ensures peers[key] in view && peers[key].handshake.remoteStatic == key
    {
      hide Exact, RecordsOk, SlotsOk, Ledger;
    }

    method ForgetKey(key: PublicKey)
      requires Valid()
      modifies this`peers
      ensures Valid() && peers == old(peers) - {key}
    {
      hide Exact, KeysOk, AllHeard, RecordsOk, SlotsOk, Ledger, Tied;
      KeysWithout(peers, records, key);
      peers := peers - {key};
    }

    method Close()
      requires Valid()
      modifies this`isClosed
      ensures Valid() && isClosed
    {
      isClosed := true;
    }

    // ----- indices

    /** Gives the peer's handshake a new index in place of its old one. */
    method RenewIndex(peer: Peer, draws: seq<uint32>) returns (index: uint32)
      requires TiedBut(peer) && peer in view && view[peer] == peer.InUse() && Exact(indexTable.table, view)
      requires GoodDraws(draws)
      modifies indexTable, peer`handshake
      ensures TiedBut(peer) && index != 0 && peer.handshake == old(peer.handshake).(localIndex := index)
      ensures Exact(indexTable.table, view[peer := peer.InUse()])
    {
      hide Exact, TiedBut;
      ghost var t0 := indexTable.table;
      DropPending(t0, view, peer);
      indexTable.Delete(peer.handshake.localIndex);
      ghost var t1, view1 := t0 - {view[peer].pending}, view[peer := view[peer].(pending := 0)];
      assert indexTable.table == t1;
      index := indexTable.NewIndexForHandshake(peer, draws);
      AddPending(t1, view1, peer, index);
      peer.handshake := peer.handshake.(localIndex := index);
      assert view1[peer := view1[peer].(pending := index)] == view[peer := peer.InUse()];
    }

    /** Before a peer is changed. */
    lemma Untie(peer: Peer)
      requires Tied() && peer in view
      ensures TiedBut(peer) && view[peer] == peer.InUse() && records[peer] == peer.AsRecord()
      ensures view.Keys == records.Keys
    {
    }

    /** After it was. */
    ghost method Retie(peer: Peer)
      requires TiedBut(peer) && peer in view
      modifies this`view, this`records
      ensures Tied() && view == old(view)[peer := peer.InUse()] && records == old(records)[peer := peer.AsRecord()]
    {
      view, records := view[peer := peer.InUse()], records[peer := peer.AsRecord()];
    }

    /** The slots of one peer changed in their pending index only. */
    lemma PendingSlots(before: map<Peer, Slots>, p: Peer, index: uint32)
      requires p in before && SlotsOk(before, confirmed, history.made.Keys)
      ensures SlotsOk(before[p := before[p].(pending := index)], confirmed, history.made.Keys)
    {
      assert SlotOk(before[p], confirmed, history.made.Keys);
      SlotUpdate(before, confirmed, confirmed, history.made.Keys, history.made.Keys, p, before[p].(pending := index));
    }

    // ----- the initiator's first message

    method CreateMessageInitiation(peer: Peer, ephemeral: nat, now: nat,
        draws: seq<uint32>) returns (msg: Option<MessageInitiation>)
      requires Valid() && peer in view && GoodDraws(draws)
      modifies indexTable, peer, this`view, this`records, this`history
      ensures Valid() && peers == old(peers) && confirmed == old(confirmed)
      ensures history == if msg.None? then old(history) else Begun(old(history), peer)
      ensures view == if msg.None? then old(view)
        else old(view)[peer := old(view)[peer].(pending := peer.handshake.localIndex)]
      ensures msg.None? <==> peer.handshake.remoteStatic.LowOrder?
      ensures msg.Some? ==>
        && peer.handshake.state == InitiationCreated && msg.value.sender == peer.handshake.localIndex
        && IsInitiationOf(msg.value, peer.transcript) && peer.transcript.timestamp == now
        && peer.transcript.initiator == secret && peer.transcript.initiatorEphemeral == ephemeral
        && Public(peer.transcript.responder) == peer.handshake.remoteStatic
      ensures Keeps(peer) && peer.isRunning == old(peer.isRunning)
    {
      hide Exact, Follows, IsInitiationOf, BeginInitiation, RecordsOk, SlotsOk, Ledger, KeysOk, AllHeard, Tied, TiedBut;
      Untie(peer);
      ghost var was, h, seen := records, history, view;
      RecordAt(was, h.active, peer, secret);
      var (hs, boxes) := BeginInitiation(peer.handshake, secret, ephemeral, now);
      if boxes.None? {
        Refuse(peer, hs);
        return None;
      }
      peer.handshake := hs;
      var (static_, timestamp) := boxes.value;
      var index := RenewIndex(peer, draws);
      InitiationCloses(old(peer.handshake), secret, ephemeral, now, index);
      peer.handshake := peer.handshake.MixHash(timestamp).(state := InitiationCreated);
      peer.transcript := Transcript(secret, hs.remoteStatic.secret, ephemeral, 0, Nothing, now);
      Retie(peer);
      PendingSlots(seen, peer, index);
      KeysUpdate(peers, was, peer, peer.AsRecord());
      BegunLedger(h, peer, secret);
      history := Begun(h, peer);
      OneRecord(was, h.active, history.active, peer, peer.AsRecord(), secret);
      return Some(MessageInitiation(MESSAGE_INITIATION_TYPE, index, Public(ephemeral), static_, timestamp));
    }

    /** The peer's key is refused: what was mixed so far stays in the idle record. */
    method Refuse(peer: Peer, hs: Handshake)
      requires Valid() && peer in view && peer.handshake.remoteStatic.LowOrder?
      requires hs == peer.handshake.(hash := hs.hash, chainKey := hs.chainKey, localEphemeral := hs.localEphemeral)
      modifies peer`handshake, this`records, this`view
      ensures Valid() && view == old(view) && Keeps(peer)
    {
      hide Exact, Follows, RecordsOk, SlotsOk, Ledger, KeysOk, AllHeard, Tied, TiedBut;
      Untie(peer);
      ghost var was, seen := records, view;
      RecordAt(was, history.active, peer, secret);
      RefusedIsZeroed(peer.handshake, secret, peer.transcript);
      peer.handshake := hs;
      Retie(peer);
      assert seen[peer := seen[peer]] == seen;
      IdleRecord(was, history.active, peer, peer.AsRecord(), secret);
      KeysUpdate(peers, was, peer, peer.AsRecord());
    }

    // ----- the responder

    /** The message starts the exchange t with this device, and comes from a running
        peer, with a newer timestamp than any before, and not too soon. */
    ghost predicate Welcome(msg: MessageInitiation, t: Transcript, now: int)
      reads this, view.Keys
      requires Tied() && KeysOk(peers, records)
    {
      && t.responder == secret && IsInitiationOf(msg, t) && Public(t.initiator) in peers
      && var p := peers[Public(t.initiator)];
      && p.isRunning && t.timestamp > p.handshake.lastTimestamp
      && now - p.handshake.lastInitiationConsumption > HANDSHAKE_INITIATION_RATE
    }

    method ConsumeMessageInitiation(msg: MessageInitiation, now: int) returns (peer: Peer?, ghost t: Transcript)
      requires Valid()
      modifies view.Keys, this`view, this`records, this`history
      ensures Valid() && peers == old(peers) && confirmed == old(confirmed) && view == old(view)
      ensures history == if peer == null then old(history) else Begun(old(history), peer)
      ensures peer == null ==> (forall t :: !old(Welcome(msg, t, now))) && forall p :: p in view ==> unchanged(p)
      ensures peer != null ==>
        && peer in view && old(Welcome(msg, t, now)) && peer == peers[Public(t.initiator)] && peer.transcript == t
        && peer.handshake.state == InitiationConsumed
        && peer.handshake.remoteIndex == msg.sender && peer.heard == old(peer.heard) + [Heard(msg, t, now)]
        && peer.handshake.remoteStatic == old(peer.handshake.remoteStatic)
        && peer.handshake.presharedKey == old(peer.handshake.presharedKey)
      ensures forall p :: p in view && p != peer ==> unchanged(p)
    {
      hide Exact, Follows, IsInitiationOf, OpenStatic, OpenStamp, RecordsOk, SlotsOk, Ledger, Tied, KeysOk, AllHeard;
      peer, t := null, Transcript(0, secret, 0, 0, Nothing, 0);
      forall t: Transcript | t.responder == secret { InitiationOpens(msg, secret, t); }
      var opens := OpenStatic(msg, secret);
      if opens.None? {
        return;
      }
      var (peerPK, hash, chainKey) := opens.value;
      if peerPK !in peers || !peers[peerPK].isRunning {
        return;
      }
      var p := peers[peerPK];
      PeerKnown(peerPK);
      var ss := SharedSecret(secret, peerPK);
      if ss.None? {
        return;
      }
      var stamped := OpenStamp(msg, hash, chainKey, ss.value);
      if stamped.None? {
        return;
      }
      var (timestamp, hash', chainKey') := stamped.value;
      if timestamp <= p.handshake.lastTimestamp
        || now - p.handshake.lastInitiationConsumption <= HANDSHAKE_INITIATION_RATE {
        return;
      }
      Opened(msg, secret);
      t := Transcript(peerPK.secret, secret, msg.ephemeral.secret, 0, Nothing, timestamp);
      assert hash' == InitHashOf(t) && chainKey' == InitChainOf(t);
      Consume(p, t, msg, hash', chainKey', timestamp, now);
      peer := p;
    }

    /** Writes what a consumed initiation leaves in the record. */
    method Consume(p: Peer, ghost t: Transcript, msg: MessageInitiation, hash: Term, chainKey: Term, timestamp: nat,
        now: int)
      requires Valid() && p in view && t.responder == secret && p.handshake.remoteStatic == Public(t.initiator)
      requires hash == InitHashOf(t) && chainKey == InitChainOf(t) && msg.ephemeral == Public(t.initiatorEphemeral)
      requires IsInitiationOf(msg, t) && timestamp == t.timestamp > p.handshake.lastTimestamp
      requires now - p.handshake.lastInitiationConsumption > HANDSHAKE_INITIATION_RATE
      modifies p`handshake, p`transcript, p`heard, this`view, this`records, this`history
      ensures Valid() && view == old(view) && history == Begun(old(history), p) && p.transcript == t
      ensures p.heard == old(p.heard) + [Heard(msg, t, now)]
      ensures p.handshake.state == InitiationConsumed && p.handshake.remoteIndex == msg.sender
      ensures p.handshake.remoteStatic == old(p.handshake.remoteStatic)
      ensures p.handshake.presharedKey == old(p.handshake.presharedKey)
    {
      hide Exact, Follows, IsInitiationOf, RecordsOk, SlotsOk, Ledger, InitHashOf, InitChainOf, KeysOk, AllHeard, Tied,
        TiedBut;
      Untie(p);
      ghost var was, h := records, history;
      ConsumedFollows(p.handshake, secret, t, msg.sender, timestamp, now);
      p.handshake := p.handshake.(hash := hash, chainKey := chainKey, remoteIndex := msg.sender,
        remoteEphemeral := msg.ephemeral, lastTimestamp := timestamp, lastInitiationConsumption := now,
        state := InitiationConsumed);
      p.transcript, p.heard := t, p.heard + [Heard(msg, t, now)];
      assert view[p := p.InUse()] == view;
      Retie(p);
      KeysHeard(peers, was, p, p.AsRecord(), Heard(msg, t, now));
      BegunLedger(h, p, secret);
      history := Begun(h, p);
      OneRecord(was, h.active, history.active, p, p.AsRecord(), secret);
    }

    /** Answers a consumed initiation. */
    method CreateMessageResponse(peer: Peer, ephemeral: nat, draws: seq<uint32>) returns (msg: Option<MessageResponse>)
      requires Valid() && peer in view && GoodDraws(draws)
      modifies indexTable, peer, this`view, this`records, this`history
      ensures Valid() && peers == old(peers) && confirmed == old(confirmed)
      ensures view == if msg.None? then old(view)
        else old(view)[peer := old(view)[peer].(pending := peer.handshake.localIndex)]
      ensures msg.Some? <==> old(peer.handshake.state) == InitiationConsumed
      ensures history == if msg.None? then old(history) else Answered(old(history), msg.value, peer.transcript)
      ensures Grows(old(history), history)
      ensures Keeps(peer)
      ensures msg.None? ==> peer.handshake == old(peer.handshake) && indexTable.table == old(indexTable.table)
      ensures msg.Some? ==>
        && peer.handshake.state == ResponseCreated && msg.value.sender == peer.handshake.localIndex
        && msg.value.receiver == peer.handshake.remoteIndex == old(peer.handshake.remoteIndex)
        && IsResponseOf(msg.value, peer.transcript) && peer.response == msg.value
        && peer.transcript == old(peer.transcript).(responderEphemeral := ephemeral,
          presharedKey := peer.handshake.presharedKey)
    {
      hide Exact, Follows, IsResponseOf, BeginResponse, RecordsOk, SlotsOk, Ledger, KeysOk, AllHeard, Tied, TiedBut;
      if peer.handshake.state != InitiationConsumed {
        return None;
      }
      Untie(peer);
      ghost var was, h, seen := records, history, view;
      RecordAt(was, h.active, peer, secret);
      var index := RenewIndex(peer, draws);
      IndexKeepsConsumed(old(peer.handshake), secret, peer.transcript, index);
      ResponseCloses(peer.handshake, secret, ephemeral, peer.transcript);
      var (hs, empty) := BeginResponse(peer.handshake, ephemeral);
      var response := MessageResponse(MESSAGE_RESPONSE_TYPE, index, hs.remoteIndex, Public(ephemeral), empty.value);
      peer.handshake := hs.(state := ResponseCreated);
      peer.transcript := peer.transcript.(responderEphemeral := ephemeral, presharedKey := hs.presharedKey);
      peer.response := response;
      Retie(peer);
      PendingSlots(seen, peer, index);
      KeysUpdate(peers, was, peer, peer.AsRecord());
      OneRecord(was, h.active, h.active, peer, peer.AsRecord(), secret);
      CreatedByUs(peer.handshake, secret, peer.transcript);
      AnsweredLedger(h, response, peer.transcript, secret);
      history := Answered(h, response, peer.transcript);
      msg := Some(response);
    }

    // ----- the initiator again

    /** The response is for a pending initiation, and ends the exchange u that it began. */
    ghost predicate Ends(msg: MessageResponse, u: Transcript)
      reads this, indexTable, view.Keys
      requires Tied() && Exact(indexTable.table, view)
    {
      && msg.receiver in indexTable.table && indexTable.table[msg.receiver].role == Pending
      && var p := indexTable.table[msg.receiver].peer;
      && p.handshake.state == InitiationCreated
      && u == p.transcript.(responderEphemeral := u.responderEphemeral, presharedKey := p.handshake.presharedKey)
      && IsResponseOf(msg, u)
    }

    method ConsumeMessageResponse(msg: MessageResponse) returns (peer: Peer?, ghost u: Transcript)
      requires Valid()
      modifies view.Keys, this`view, this`records
      ensures Valid() && peers == old(peers) && confirmed == old(confirmed) && view == old(view)
      ensures history == old(history)
      ensures indexTable.table == old(indexTable.table)
      ensures peer == null ==> (forall t :: !old(Ends(msg, t))) && forall p :: p in view ==> unchanged(p)
      ensures peer != null ==>
        && peer in view && old(Ends(msg, u)) && peer.transcript == u && peer.response == msg
        && peer.handshake.state == ResponseConsumed
        && peer.handshake.remoteIndex == msg.sender && indexTable.table[msg.receiver].peer == peer
        && peer.handshake.localIndex == msg.receiver && Keeps(peer)
      ensures forall p :: p in view && p != peer ==> unchanged(p)
    {
      hide Valid, Follows, IsResponseOf, OpenResponse;
      peer, u := null, Transcript(0, 0, 0, 0, Nothing, 0);
      var found := indexTable.Lookup(msg.receiver);
      if msg.kind != MESSAGE_RESPONSE_TYPE || found.None? || found.value.role != Pending {
        NotOfKind(msg);
        return;
      }
      var p := found.value.peer;
      PendingPeer(msg.receiver);
      if p.handshake.state != InitiationCreated {
        return;
      }
      var opens := OpenResponse(p.handshake, secret, msg);
      ResponseOpens(p.handshake, secret, p.transcript, msg);
      ResponseKey(msg);
      if opens.None? {
        return;
      }
      u := WithResponse(p.transcript, p.handshake, msg);
      Conclude(p, u, msg, opens.value.0, opens.value.1);
      peer := p;
    }

    /** The peer whose handshake has this index. */
    lemma PendingPeer(id: uint32)
      requires Valid() && id in indexTable.table && indexTable.table[id].role == Pending
      ensures var p := indexTable.table[id].peer;
        p in view && p.handshake.localIndex == id && Follows(p.handshake, secret, p.transcript)
    {
      hide Follows, SlotsIn, RecordsOk, SlotsOk, Ledger, KeysOk, AllHeard;
      RecordAt(records, history.active, indexTable.table[id].peer, secret);
    }

    /** Writes what a consumed response leaves in the record. */
    method Conclude(p: Peer, ghost u: Transcript, msg: MessageResponse, hash: Term, chainKey: Term)
      requires Valid() && p in view && p.handshake.state == InitiationCreated && p.handshake.localIndex == msg.receiver
      requires IsResponseOf(msg, u)
      requires Follows(p.handshake.(hash := hash, chainKey := chainKey, remoteIndex := msg.sender,
        state := ResponseConsumed), secret, u)
      modifies p`handshake, p`transcript, p`response, this`view, this`records
      ensures Valid() && view == old(view) && p.transcript == u && p.response == msg
      ensures p.handshake == old(p.handshake).(hash := hash, chainKey := chainKey, remoteIndex := msg.sender,
        state := ResponseConsumed)
    {
      hide Exact, Follows, IsResponseOf, RecordsOk, SlotsOk, Ledger, KeysOk, AllHeard, Tied, TiedBut;
      Untie(p);
      ghost var was := records;
      RecordAt(was, history.active, p, secret);
      p.handshake := p.handshake.(hash := hash, chainKey := chainKey, remoteIndex := msg.sender,
        state := ResponseConsumed);
      p.transcript, p.response := u, msg;
      assert view[p := p.InUse()] == view;
      Retie(p);
      KeysUpdate(peers, was, p, p.AsRecord());
      OneRecord(was, history.active, history.active, p, p.AsRecord(), secret);
    }

    // ----- sessions

    /** Derives a keypair from a completed exchange, and rotates the slots. */
    method BeginSymmetricSession(peer: Peer) returns (keypair: Keypair?)
      requires Valid() && peer in view
      modifies indexTable, peer, this`view, this`records, this`history
      ensures Valid() && peers == old(peers) && confirmed == old(confirmed)
      ensures keypair == null <==>
        old(peer.handshake.state) != ResponseConsumed && old(peer.handshake.state) != ResponseCreated
      ensures keypair == null ==>
        peer.handshake == old(peer.handshake) && view == old(view) && indexTable.table == old(indexTable.table)
          && history == old(history)
      ensures keypair != null ==>
        && fresh(keypair) && keypair.isInitiator == (old(peer.handshake.state) == ResponseConsumed)
        && (keypair.send, keypair.receive) == SessionKeys(old(peer.handshake.chainKey), keypair.isInitiator)
        && keypair.localIndex == old(peer.handshake.localIndex)
        && keypair.remoteIndex == old(peer.handshake.remoteIndex)
        && view == old(view)[peer := peer.InUse()] && peer.handshake.localIndex == 0
        && peer.handshake.state == Zeroed && peer in old(history).active
        && history == Concluded(old(history), peer, keypair, old(peer.transcript), old(peer.response))
      ensures keypair != null && keypair.isInitiator ==>
        && peer.current == keypair && peer.next == null
        && peer.previous == if old(peer.next) != null then old(peer.next) else old(peer.current)
      ensures keypair != null && !keypair.isInitiator ==>
        peer.next == keypair && peer.current == old(peer.current) && peer.previous == null
      ensures Keeps(peer)
    {
      hide Exact, SlotsIn, Follows, RecordsOk, SlotsOk, Ledger, SessionKeys, KeysOk, AllHeard, Tied;
      if peer.handshake.state != ResponseConsumed && peer.handshake.state != ResponseCreated {
        return null;
      }
      Untie(peer);
      RecordAt(records, history.active, peer, secret);
      var isInitiator := peer.handshake.state == ResponseConsumed;
      var index := peer.handshake.localIndex;
      var kp := new Keypair(SessionKeys(peer.handshake.chainKey, isInitiator), isInitiator, index,
        peer.handshake.remoteIndex);
      RecordSession(peer.AsRecord(), secret, kp, history.active[peer]);
      Derive(peer, kp);
      keypair := kp;
    }

    /** The record is zeroed, and the new keypair takes its place. */
    method Derive(peer: Peer, kp: Keypair)
      requires Valid() && peer in view && peer in history.active && kp !in history.made && !view[peer].Holds(kp)
      requires peer.handshake.localIndex == kp.localIndex != 0
      requires SessionOk(kp, Session(history.active[peer], peer.transcript, peer.response), secret)
      modifies indexTable, peer, this`view, this`records, this`history
      ensures Valid() && peers == old(peers) && confirmed == old(confirmed)
      ensures view == old(view)[peer := peer.InUse()] && peer.InUse() == Rotated(old(peer.InUse()), kp)
      ensures peer.handshake.state == Zeroed && Keeps(peer)
      ensures history == Concluded(old(history), peer, kp, old(peer.transcript), old(peer.response))
    {
      hide Exact, SlotsIn, Follows, RecordsOk, SlotsOk, Ledger, SessionOk, KeysOk, AllHeard, Tied, TiedBut;
      Untie(peer);
      ghost var was, h, seen := records, history, view;
      ConcludedLedger(h, peer, kp, peer.transcript, peer.response, secret);
      RotatedSlots(seen, confirmed, h.made.Keys, peer, kp);
      peer.handshake := peer.handshake.(chainKey := Nothing, hash := Nothing, localEphemeral := 0, state := Zeroed);
      Install(peer, kp);
      Retie(peer);
      KeysUpdate(peers, was, peer, peer.AsRecord());
      history := Concluded(h, peer, kp, peer.transcript, peer.response);
      assert history.made.Keys == h.made.Keys + {kp};
      ZeroedRecord(was, h.active, peer, peer.AsRecord(), secret);
    }

    /** The pending index becomes the new keypair's, and the slots are rotated. */
    method Install(peer: Peer, kp: Keypair)
      requires TiedBut(peer) && Exact(indexTable.table, view) && peer in view && view[peer] == peer.InUse()
      requires peer.handshake.localIndex == kp.localIndex != 0 && !view[peer].Holds(kp)
      modifies indexTable, peer`handshake, peer`current, peer`previous, peer`next
      ensures TiedBut(peer) && Exact(indexTable.table, view[peer := peer.InUse()])
      ensures peer.InUse() == Rotated(view[peer], kp)
      ensures peer.handshake == old(peer.handshake).(localIndex := 0)
    {
      hide Exact, SlotsIn, TiedBut;
      PendingIn(indexTable.table, view, peer);
      Rotation(indexTable.table, view, peer, kp);
      indexTable.SwapIndexForKeypair(peer.handshake.localIndex, kp);
      peer.handshake := peer.handshake.(localIndex := 0);
      Rotate(peer, kp);
    }

    /** The rotation proper: which keypair moves where, and which are deleted. */
    method Rotate(peer: Peer, kp: Keypair)
      modifies indexTable, peer`current, peer`previous, peer`next
      ensures kp.isInitiator ==>
        && peer.current == kp && peer.next == null
        && peer.previous == if old(peer.next) != null then old(peer.next) else old(peer.current)
      ensures !kp.isInitiator ==> peer.next == kp && peer.current == old(peer.current) && peer.previous == null
      ensures var s := old(peer.InUse());
        && peer.InUse() == Rotated(s, kp).(pending := s.pending)
        && indexTable.table == Without(Without(old(indexTable.table), RetiredFirst(s, kp)), s.previous)
    {
      var previous, next, current := peer.previous, peer.next, peer.current;
      if kp.isInitiator {
        if next != null {
          peer.next := null;
          peer.previous := next;
          indexTable.DeleteKeypair(current);
        } else {
          peer.previous := current;
        }
        indexTable.DeleteKeypair(previous);
        peer.current := kp;
      } else {
        peer.next := kp;
        indexTable.DeleteKeypair(next);
        peer.previous := null;
        indexTable.DeleteKeypair(previous);
      }
    }

    /** A packet arrives under a keypair: if it decrypts and its counter is new, it
        confirms the keypair, and a keypair waiting in `next` comes into use. */
    method ReceivePacket(peer: Peer, keypair: Keypair, counter: uint64, authentic: bool) returns (rotated: bool)
      requires Valid() && peer in view
      modifies indexTable, peer`current, peer`previous, peer`next, keypair, this`view, this`records, this`confirmed
      ensures Valid() && peers == old(peers) && history == old(history)
      ensures var fits := authentic && Replay.Acceptable(old(keypair.accepted), counter, REJECT_AFTER_MESSAGES);
        && confirmed == old(confirmed) + (if fits then {keypair} else {})
        && keypair.accepted == old(keypair.accepted) + (if fits then {counter} else {})
        && (rotated <==> fits && old(peer.next) == keypair)
      ensures var s := old(view)[peer];
        view == old(view)[peer := if rotated then s.(previous := s.current, current := s.next, next := null) else s]
    {
      hide Exact, SlotsIn, Follows, RecordsOk, SlotsOk, Ledger, KeysOk, AllHeard, Tied;
      rotated := false;
      assert view[peer := view[peer]] == view;
      if !authentic {
        return;
      }
      var ok := CheckCounter(keypair, counter);
      if !ok {
        return;
      }
      MoreConfirmed(view, confirmed, history.made.Keys, keypair);
      confirmed := confirmed + {keypair};
      rotated := ReceivedWithKeypair(peer, keypair);
    }

    /** The replay filter's verdict, as module Replay proves it. */
    method CheckCounter(keypair: Keypair, counter: uint64) returns (ok: bool)
      modifies keypair
      ensures ok <==> Replay.Acceptable(old(keypair.accepted), counter, REJECT_AFTER_MESSAGES)
      ensures keypair.accepted == if ok then old(keypair.accepted) + {counter} else old(keypair.accepted)
    {
      ok := counter < REJECT_AFTER_MESSAGES && counter !in keypair.accepted
            && forall a :: a in keypair.accepted ==> a - counter <= Replay.WINDOW_SIZE;
      if ok {
        keypair.accepted := keypair.accepted + {counter};
      }
    }

    method ReceivedWithKeypair(peer: Peer, keypair: Keypair) returns (rotated: bool)
      requires Valid() && peer in view && keypair in confirmed
      modifies indexTable, peer`current, peer`previous, peer`next, this`view, this`records
      ensures Valid() && peers == old(peers) && confirmed == old(confirmed) && history == old(history)
      ensures rotated <==> old(peer.next) == keypair
      ensures var s := old(view)[peer];
        view == old(view)[peer := if rotated then s.(previous := s.current, current := s.next, next := null) else s]
    {
      hide Exact, SlotsIn, Follows, RecordsOk, SlotsOk, Ledger, KeysOk, AllHeard, Tied, TiedBut;
      Untie(peer);
      if peer.next != keypair {
        assert view[peer := view[peer]] == view;
        return false;
      }
      Confirmation(indexTable.table, view, peer, keypair);
      ConfirmedSlots(view, confirmed, history.made.Keys, peer);
      var before := peer.previous;
      peer.previous := peer.current;
      indexTable.DeleteKeypair(before);
      peer.current := peer.next;
      peer.next := null;
      assert records[peer := peer.AsRecord()] == records;
      Retie(peer);
      return true;
    }

    /** The only keypair packets are sent with: the initiator's own, or one the other
        side has shown to have. */
    method CurrentKeypair(peer: Peer) returns (keypair: Keypair?)
      requires Valid() && peer in view
      ensures keypair == peer.current
      ensures keypair != null ==>
        && (keypair.isInitiator || keypair in confirmed) && keypair in history.made
        && Has(indexTable.table, keypair.localIndex, Entry(peer, Live(keypair)))
    {
      hide Follows, RecordsOk, Ledger;
      keypair := peer.current;
      assert SlotsIn(indexTable.table, peer, view[peer]) && SlotOk(view[peer], confirmed, history.made.Keys);
    }

    // ----- forgetting

    method ClearHandshake(peer: Peer)
      requires Valid() && peer in view
      modifies indexTable, peer`handshake, this`view, this`records, this`history
      ensures Valid() && peers == old(peers) && confirmed == old(confirmed) && history == GivenUp(old(history), peer)
      ensures peer.handshake == old(peer.handshake).Clear() && view == old(view)[peer := old(view)[peer].(pending := 0)]
    {
      hide Exact, Follows, RecordsOk, SlotsOk, Ledger, KeysOk, AllHeard, Tied, TiedBut;
      Untie(peer);
      ghost var was, h := records, history;
      DropPending(indexTable.table, view, peer);
      PendingSlots(view, peer, 0);
      indexTable.Delete(peer.handshake.localIndex);
      peer.handshake := peer.handshake.Clear();
      Retie(peer);
      KeysUpdate(peers, was, peer, peer.AsRecord());
      GivenUpLedger(h, peer, secret);
      history := GivenUp(h, peer);
      ZeroedRecord(was, h.active, peer, peer.AsRecord(), secret);
    }

    /** Gives up the pending handshake, and keeps the keypairs from sending any more. */
    method ExpireCurrentKeypairs(peer: Peer)
      requires Valid() && peer in view
      modifies indexTable, peer`handshake, this`view, this`records, this`history, peer.current, peer.next
      ensures Valid() && peers == old(peers) && confirmed == old(confirmed) && history == GivenUp(old(history), peer)
      ensures peer.handshake == old(peer.handshake).Clear() && view == old(view)[peer := old(view)[peer].(pending := 0)]
      ensures peer.current != null ==> peer.current.sendNonce == REJECT_AFTER_MESSAGES
      ensures peer.next != null ==> peer.next.sendNonce == REJECT_AFTER_MESSAGES
    {
      hide Valid;
      ClearHandshake(peer);
      if peer.current != null {
        peer.current.sendNonce := REJECT_AFTER_MESSAGES;
      }
      if peer.next != null {
        peer.next.sendNonce := REJECT_AFTER_MESSAGES;
      }
    }

    method DeleteKeypairs(peer: Peer)
      requires Valid() && peer in view
      modifies indexTable, peer`current, peer`previous, peer`next, this`view, this`records
      ensures Valid() && peers == old(peers) && confirmed == old(confirmed) && history == old(history)
      ensures view == old(view)[peer := Slots(peer.handshake.localIndex, null, null, null)]
    {
      hide Exact, SlotsIn, Follows, Without, RecordsOk, SlotsOk, Ledger, KeysOk, AllHeard, Tied, TiedBut;
      Untie(peer);
      AllKeypairsDropped(indexTable.table, view, peer);
      SlotUpdate(view, confirmed, confirmed, history.made.Keys, history.made.Keys, peer,
        Slots(peer.handshake.localIndex, null, null, null));
      indexTable.DeleteKeypair(peer.previous);
      indexTable.DeleteKeypair(peer.current);
      indexTable.DeleteKeypair(peer.next);
      peer.previous, peer.current, peer.next := null, null, null;
      assert records[peer := peer.AsRecord()] == records;
      Retie(peer);
    }

    /** Forgets all keys of a peer and its handshake: the table keeps nothing of it. */
    method ZeroAndFlushAll(peer: Peer)
      requires Valid() && peer in view
      modifies indexTable, peer`handshake, peer`current, peer`previous, peer`next, this`view, this`records, this`history
      ensures Valid() && peers == old(peers) && confirmed == old(confirmed) && history == GivenUp(old(history), peer)
      ensures view == old(view)[peer := Slots(0, null, null, null)] && peer.handshake == old(peer.handshake).Clear()
      ensures forall i :: i in indexTable.table ==> indexTable.table[i].peer != peer
    {
      hide Exact, Kept, Tied;
      DeleteKeypairs(peer);
      ClearHandshake(peer);
      NothingLeft(indexTable.table, view, peer);
    }
  }

  /** Two devices that share no object. */
  ghost predicate Apart(a: Device, b: Device)
    reads a, b
  {
    a != b && a.indexTable != b.indexTable && a.view.Keys !! b.view.Keys
  }

  // ----- one peer's part of what is kept

  lemma RecordAt(records: map<Peer, Record>, active: map<Peer, nat>, p: Peer, secret: nat)
    requires RecordsOk(records, active, secret) && p in records
    ensures RecordOk(records[p], secret) && Follows(records[p].handshake, secret, records[p].transcript)
    ensures p in active <==> records[p].handshake.state != Zeroed
  {
  }

  lemma NewRecord(records: map<Peer, Record>, h: History, p: Peer, r: Record, secret: nat)
    requires RecordsOk(records, h.active, secret) && p !in records && r.handshake.state == Zeroed
    ensures RecordsOk(records[p := r], h.active, secret) && p !in h.active
  {
    RecordUpdate(records, h.active, h.active, p, r, secret);
  }

  lemma IdleRecord(records: map<Peer, Record>, active: map<Peer, nat>, p: Peer, r: Record, secret: nat)
    requires RecordsOk(records, active, secret) && p in records
    requires records[p].handshake.state == r.handshake.state == Zeroed
    ensures RecordsOk(records[p := r], active, secret)
  {
    RecordUpdate(records, active, active, p, r, secret);
  }

  /** One record changed, and it is in the middle of an exchange. */
  lemma OneRecord(records: map<Peer, Record>, active: map<Peer, nat>, active': map<Peer, nat>, p: Peer, r: Record,
      secret: nat)
    requires RecordsOk(records, active, secret) && p in active' && RecordOk(r, secret) && r.handshake.state != Zeroed
    requires forall q :: q != p ==> (q in active' <==> q in active)
    ensures RecordsOk(records[p := r], active', secret)
  {
    RecordUpdate(records, active, active', p, r, secret);
  }

  lemma ZeroedRecord(records: map<Peer, Record>, active: map<Peer, nat>, p: Peer, r: Record, secret: nat)
    requires RecordsOk(records, active, secret) && r.handshake.state == Zeroed
    ensures RecordsOk(records[p := r], active - {p}, secret)
  {
    RecordUpdate(records, active, active - {p}, p, r, secret);
  }

  /** Peers are found under their own keys. */
  ghost predicate KeysOk(peers: map<PublicKey, Peer>, records: map<Peer, Record>) {
    forall pk :: pk in peers ==> peers[pk] in records && records[peers[pk]].handshake.remoteStatic == pk
  }

  lemma KeysWith(peers: map<PublicKey, Peer>, records: map<Peer, Record>, pk: PublicKey, p: Peer, r: Record)
    requires KeysOk(peers, records) && AllHeard(records) && p !in records && r.handshake.remoteStatic == pk
    requires r.heard == []
    ensures KeysOk(peers[pk := p], records[p := r]) && AllHeard(records[p := r])
  {
  }

  lemma KeysWithout(peers: map<PublicKey, Peer>, records: map<Peer, Record>, pk: PublicKey)
    requires KeysOk(peers, records)
    ensures KeysOk(peers - {pk}, records)
  {
  }

  lemma KeysUpdate(peers: map<PublicKey, Peer>, records: map<Peer, Record>, p: Peer, r: Record)
    requires KeysOk(peers, records) && AllHeard(records) && p in records
    requires r.handshake.remoteStatic == records[p].handshake.remoteStatic && SameHeard(records[p], r)
    ensures KeysOk(peers, records[p := r]) && AllHeard(records[p := r])
  {
    hide IsInitiationOf, Spaced;
    assert HeardOk(records[p]);
  }

  lemma KeysHeard(peers: map<PublicKey, Peer>, records: map<Peer, Record>, p: Peer, r: Record, e: Heard)
    requires KeysOk(peers, records) && AllHeard(records) && p in records
    requires r.handshake.remoteStatic == records[p].handshake.remoteStatic
    requires IsInitiationOf(e.msg, e.transcript) && r.heard == records[p].heard + [e]
    requires e.transcript.timestamp > records[p].handshake.lastTimestamp
    requires e.at - records[p].handshake.lastInitiationConsumption > HANDSHAKE_INITIATION_RATE
    requires r.handshake.lastTimestamp == e.transcript.timestamp && r.handshake.lastInitiationConsumption == e.at
    ensures KeysOk(peers, records[p := r]) && AllHeard(records[p := r])
  {
    hide IsInitiationOf, HeardOk;
    HeardMore(records[p], r, e);
  }

  lemma RotatedSlots(view: map<Peer, Slots>, confirmed: set<Keypair>, kps: set<Keypair>, p: Peer, kp: Keypair)
    requires SlotsOk(view, confirmed, kps) && p in view
    ensures SlotsOk(view[p := Rotated(view[p], kp)], confirmed, kps + {kp})
  {
    assert SlotOk(view[p], confirmed, kps);
    SlotUpdate(view, confirmed, confirmed, kps, kps + {kp}, p, Rotated(view[p], kp));
  }

  lemma MoreConfirmed(view: map<Peer, Slots>, confirmed: set<Keypair>, kps: set<Keypair>, kp: Keypair)
    requires SlotsOk(view, confirmed, kps)
    ensures SlotsOk(view, confirmed + {kp}, kps)
  {
    forall p | p in view ensures SlotOk(view[p], confirmed + {kp}, kps) {
      assert SlotOk(view[p], confirmed, kps);
    }
  }

  lemma ConfirmedSlots(view: map<Peer, Slots>, confirmed: set<Keypair>, kps: set<Keypair>, p: Peer)
    requires SlotsOk(view, confirmed, kps) && p in view && view[p].next != null && view[p].next in confirmed
    ensures var s := view[p];
      SlotsOk(view[p := s.(previous := s.current, current := s.next, next := null)], confirmed, kps)
  {
    var s := view[p];
    assert SlotOk(s, confirmed, kps);
    SlotUpdate(view, confirmed, confirmed, kps, kps, p, s.(previous := s.current, current := s.next, next := null));
  }

  lemma CreatedByUs(hs: Handshake, secret: nat, t: Transcript)
    requires hs.state == ResponseCreated && Follows(hs, secret, t)
    ensures t.responder == secret
  {
  }

  lemma NotOfKind(msg: MessageResponse)
    ensures msg.kind != MESSAGE_RESPONSE_TYPE ==> forall t :: !IsResponseOf(msg, t)
  {
  }

  lemma ResponseKey(msg: MessageResponse)
    ensures forall t :: IsResponseOf(msg, t) ==> msg.ephemeral == Public(t.responderEphemeral)
  {
  }

  lemma IndexKeepsConsumed(hs: Handshake, secret: nat, t: Transcript, index: uint32)
    requires hs.state == InitiationConsumed && Follows(hs, secret, t)
    ensures Follows(hs.(localIndex := index), secret, t)
  {
  }

  lemma Opened(msg: MessageInitiation, secret: nat)
    requires OpenStatic(msg, secret).Some?
    ensures msg.ephemeral.Public?
  {
  }

  lemma ConsumedFollows(hs: Handshake, secret: nat, t: Transcript, sender: uint32, timestamp: nat, now: int)
    requires t.responder == secret && hs.remoteStatic == Public(t.initiator)
    ensures Follows(hs.(hash := InitHashOf(t), chainKey := InitChainOf(t), remoteIndex := sender,
      remoteEphemeral := Public(t.initiatorEphemeral),
                        lastTimestamp := timestamp, lastInitiationConsumption := now, state := InitiationConsumed),
                          secret, t)
  {
  }
}
