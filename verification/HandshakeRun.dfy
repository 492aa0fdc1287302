/** A whole handshake between two devices, delivered unmodified. */
module HandshakeRun {
  import opened Bitwise
  import opened Noise
  import opened Indices
  import opened Exchanges
  import opened Device

  /** The two records are about one exchange, but for what the response adds. */
  ghost predicate SameStart(t: Transcript, u: Transcript) {
    u == t.(responderEphemeral := u.responderEphemeral, presharedKey := u.presharedKey)
  }

  /** The initiation is made, delivered and consumed. */
  method FirstMessage(a: Device, b: Device, atA: Peer, atB: Peer, ephemeral: nat, stamp: nat, now: int,
      draws: seq<uint32>)
    requires a.Valid() && b.Valid() && Apart(a, b) && atA in a.view && atB in b.view
    requires atA.handshake.remoteStatic == Public(b.secret)
    requires Public(a.secret) in b.peers && b.peers[Public(a.secret)] == atB && atB.isRunning
    requires stamp > atB.handshake.lastTimestamp
    requires now - atB.handshake.lastInitiationConsumption > HANDSHAKE_INITIATION_RATE
    requires a.GoodDraws(draws)
    modifies a`view, a`records, a`history, a.indexTable, atA, b`view, b`records, b`history, b.view.Keys
    ensures a.Valid() && b.Valid() && a.view.Keys == old(a.view.Keys) && b.view == old(b.view)
    ensures atA.handshake.state == InitiationCreated && atB.handshake.state == InitiationConsumed
    ensures SameStart(atA.transcript, atB.transcript)
    ensures Has(a.indexTable.table, atA.handshake.localIndex, Entry(atA, Pending))
    ensures atB.handshake.remoteIndex == atA.handshake.localIndex
    ensures atA.handshake.presharedKey == old(atA.handshake.presharedKey)
    ensures atB.handshake.presharedKey == old(atB.handshake.presharedKey)
  {
    hide Exact, Follows, IsInitiationOf, RecordsOk, SlotsOk, Ledger, KeysOk, Device.Tied;
    var initiation := a.CreateMessageInitiation(atA, ephemeral, stamp, draws);
    InitiationFixesTranscript(initiation.value, atA.transcript);
    PendingIn(a.indexTable.table, a.view, atA);
    a.Untie(atA);
    RecordAt(a.records, a.history.active, atA, a.secret);
    CreatedHasIndex(atA.handshake, a.secret, atA.transcript);
    assert b.Welcome(initiation.value, atA.transcript, now);
    var p, t := b.ConsumeMessageInitiation(initiation.value, now);
  }

  /** The responder answers: it derives its session before the response leaves. */
  method SendHandshakeResponse(b: Device, atB: Peer, ephemeral: nat, draws: seq<uint32>) returns (msg: MessageResponse,
      keys: Keypair)
    requires b.Valid() && atB in b.view && atB.handshake.state == InitiationConsumed && b.GoodDraws(draws)
    modifies b`view, b`records, b`history, b.indexTable, atB
    ensures b.Valid() && b.view.Keys == old(b.view.Keys) && fresh(keys) && !keys.isInitiator && atB.next == keys
    ensures keys in b.history.made && b.history.made[keys].response == msg
    ensures IsResponseOf(msg, b.history.made[keys].transcript)
    ensures msg.receiver == old(atB.handshake.remoteIndex)
    ensures var t := b.history.made[keys].transcript;
      t == old(atB.transcript).(responderEphemeral := t.responderEphemeral,
        presharedKey := old(atB.handshake.presharedKey))
  {
    hide Device.Valid, IsResponseOf, SessionKeys;
    var response := b.CreateMessageResponse(atB, ephemeral, draws);
    msg := response.value;
    var kp := b.BeginSymmetricSession(atB);
    keys := kp;
  }

  /** The initiator takes the response, and derives its session. */
  method TakeHandshakeResponse(a: Device, atA: Peer, msg: MessageResponse, ghost t: Transcript) returns (keys: Keypair)
    requires a.Valid() && atA in a.view && atA.handshake.state == InitiationCreated
    requires Has(a.indexTable.table, msg.receiver, Entry(atA, Pending)) && IsResponseOf(msg, t)
    requires t == atA.transcript.(responderEphemeral := t.responderEphemeral,
      presharedKey := atA.handshake.presharedKey)
    modifies a`view, a`records, a`history, a.indexTable, a.view.Keys
    ensures a.Valid() && a.view.Keys == old(a.view.Keys) && fresh(keys) && keys.isInitiator && atA.current == keys
    ensures keys in a.history.made && a.history.made[keys].response == msg
  {
    hide Device.Valid, IsResponseOf, SessionKeys;
    EndsPending(a, atA, msg, t);
    var q, u := a.ConsumeMessageResponse(msg);
    var kp := a.BeginSymmetricSession(atA);
    keys := kp;
  }

  lemma EndsPending(a: Device, atA: Peer, msg: MessageResponse, t: Transcript)
    requires a.Valid() && atA in a.view && atA.handshake.state == InitiationCreated
    requires Has(a.indexTable.table, msg.receiver, Entry(atA, Pending)) && IsResponseOf(msg, t)
    requires t == atA.transcript.(responderEphemeral := t.responderEphemeral,
      presharedKey := atA.handshake.presharedKey)
    ensures a.Ends(msg, t)
  {
  }

  /** With matching keys, a fresh timestamp and no flood, both sides accept, and each
      side receives with what the other sends with, under the index it gave. */
  method Exchange(a: Device, b: Device, atA: Peer, atB: Peer, ephemeralA: nat, ephemeralB: nat, stamp: nat, now: int,
      drawsA: seq<uint32>, drawsB: seq<uint32>)
    returns (keysA: Keypair, keysB: Keypair)
    requires a.Valid() && b.Valid() && Apart(a, b) && atA in a.view && atB in b.view
    requires atA.handshake.remoteStatic == Public(b.secret)
    requires Public(a.secret) in b.peers && b.peers[Public(a.secret)] == atB && atB.isRunning
    requires atA.handshake.presharedKey == atB.handshake.presharedKey
    requires stamp > atB.handshake.lastTimestamp
    requires now - atB.handshake.lastInitiationConsumption > HANDSHAKE_INITIATION_RATE
    requires a.GoodDraws(drawsA) && b.GoodDraws(drawsB)
    modifies a, a.indexTable, a.view.Keys, b, b.indexTable, b.view.Keys
    ensures a.Valid() && b.Valid() && keysA.isInitiator && !keysB.isInitiator
    ensures keysA.send == keysB.receive && keysA.receive == keysB.send
    ensures keysA.remoteIndex == keysB.localIndex && keysB.remoteIndex == keysA.localIndex
    ensures atA.current == keysA && atB.next == keysB
  {
    hide Device.Valid, IsResponseOf, SessionKeys;
    FirstMessage(a, b, atA, atB, ephemeralA, stamp, now, drawsA);
    var msg;
    msg, keysB := SendHandshakeResponse(b, atB, ephemeralB, drawsB);
    keysA := TakeHandshakeResponse(a, atA, msg, b.history.made[keysB].transcript);
    Recorded(a);
    Recorded(b);
    hide Ledger;
    SessionsCross(a.history, a.secret, keysA, b.history, b.secret, keysB);
  }

  lemma Recorded(d: Device)
    requires d.Valid()
    ensures Ledger(d.history, d.secret)
  {
  }

  lemma CreatedHasIndex(hs: Handshake, secret: nat, t: Transcript)
    requires Follows(hs, secret, t) && hs.state == InitiationCreated
    ensures hs.localIndex != 0
  {
  }

  /** One initiation starts one exchange only. */
  lemma InitiationFixesTranscript(msg: MessageInitiation, t: Transcript)
    requires IsInitiationOf(msg, t)
    ensures forall u :: IsInitiationOf(msg, u) ==> SameStart(t, u)
  {
  }
}
