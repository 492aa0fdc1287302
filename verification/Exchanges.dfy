/** The exchanges of one device: numbered when they begin, so that it can be said which
    keypair came of which, and recorded with the response that ended them. */
module Exchanges {
  import opened Noise
  import opened Indices

  /** Where a keypair came from. */
  datatype Session = Session(exchange: nat, transcript: Transcript, response: MessageResponse)

  /** The number of the next exchange, those that peers have under way, the keypairs
      ever made, and the responses ever created. */
  datatype History = History(next: nat, active: map<Peer, nat>, made: map<Keypair, Session>,
      created: map<MessageResponse, Transcript>)

  const NO_HISTORY := History(0, map[], map[], map[])

  // ----- numbers

  /** No two keypairs came of one exchange, and none of one that is under way. */
  ghost predicate Numbered(h: History) {
    && (forall k :: k in h.made ==> h.made[k].exchange < h.next)
    && (forall p :: p in h.active ==> h.active[p] < h.next)
    && (forall k, l :: k in h.made && l in h.made && h.made[k].exchange == h.made[l].exchange ==> k == l)
    && (forall p, q :: p in h.active && q in h.active && h.active[p] == h.active[q] ==> p == q)
    && (forall p, k :: p in h.active && k in h.made ==> h.active[p] != h.made[k].exchange)
  }

  ghost function Begun(h: History, p: Peer): History {
    h.(next := h.next + 1, active := h.active[p := h.next])
  }

  ghost function GivenUp(h: History, p: Peer): History {
    h.(active := h.active - {p})
  }

  ghost function Answered(h: History, msg: MessageResponse, t: Transcript): History {
    h.(created := h.created[msg := t])
  }

  ghost function Concluded(h: History, p: Peer, kp: Keypair, t: Transcript, msg: MessageResponse): History
    requires p in h.active
  {
    h.(active := h.active - {p}, made := h.made[kp := Session(h.active[p], t, msg)])
  }

  // ----- what is recorded

  /** The keypair has the keys and indices of the exchange it came from. */
  ghost predicate SessionOk(kp: Keypair, s: Session, secret: nat) {
    && (kp.send, kp.receive) == SessionKeys(FinalChain(s.transcript), kp.isInitiator)
    && IsResponseOf(s.response, s.transcript)
    && (if kp.isInitiator then s.transcript.initiator == secret else s.transcript.responder == secret)
    && (if kp.isInitiator then kp.localIndex == s.response.receiver && kp.remoteIndex == s.response.sender
        else kp.localIndex == s.response.sender && kp.remoteIndex == s.response.receiver)
  }

  ghost predicate SessionsOk(made: map<Keypair, Session>, secret: nat) {
    forall k :: k in made ==> SessionOk(k, made[k], secret)
  }

  ghost predicate CreatedOk(created: map<MessageResponse, Transcript>, secret: nat) {
    forall m :: m in created ==> IsResponseOf(m, created[m]) && created[m].responder == secret
  }

  ghost predicate Ledger(h: History, secret: nat) {
    Numbered(h) && SessionsOk(h.made, secret) && CreatedOk(h.created, secret)
  }

  /** Nothing recorded is lost. */
  ghost predicate Grows(h: History, h': History) {
    && (forall k :: k in h.made ==> k in h'.made && h'.made[k] == h.made[k])
    && (forall m :: m in h.created ==> m in h'.created && h'.created[m] == h.created[m])
  }

  lemma BegunLedger(h: History, p: Peer, secret: nat)
    requires Ledger(h, secret)
    ensures Ledger(Begun(h, p), secret) && Grows(h, Begun(h, p))
  {
    hide SessionsOk, CreatedOk, Numbered;
    BegunNumbered(h, p);
  }

  lemma BegunNumbered(h: History, p: Peer)
    requires Numbered(h)
    ensures Numbered(Begun(h, p))
  {
  }

  lemma GivenUpLedger(h: History, p: Peer, secret: nat)
    requires Ledger(h, secret)
    ensures Ledger(GivenUp(h, p), secret) && Grows(h, GivenUp(h, p))
  {
    hide SessionsOk, CreatedOk;
  }

  /** A response is created; one that was created before ended the same exchange. */
  lemma AnsweredLedger(h: History, msg: MessageResponse, t: Transcript, secret: nat)
    requires Ledger(h, secret) && IsResponseOf(msg, t) && t.responder == secret
    ensures Ledger(Answered(h, msg, t), secret) && Grows(h, Answered(h, msg, t))
  {
    hide SessionsOk, Numbered, IsResponseOf;
    AnsweredNumbered(h, msg, t);
    if msg in h.created {
      BoxFixesTranscript(msg, t, msg, h.created[msg]);
    }
  }

  lemma AnsweredNumbered(h: History, msg: MessageResponse, t: Transcript)
    requires Numbered(h)
    ensures Numbered(Answered(h, msg, t))
  {
  }

  lemma ConcludedNumbered(h: History, p: Peer, kp: Keypair, t: Transcript, msg: MessageResponse)
    requires Numbered(h) && p in h.active && kp !in h.made
    ensures Numbered(Concluded(h, p, kp, t, msg))
  {
  }

  lemma ConcludedLedger(h: History, p: Peer, kp: Keypair, t: Transcript, msg: MessageResponse, secret: nat)
    requires Ledger(h, secret) && p in h.active && kp !in h.made && SessionOk(kp, Session(h.active[p], t, msg), secret)
    ensures Ledger(Concluded(h, p, kp, t, msg), secret) && Grows(h, Concluded(h, p, kp, t, msg))
  {
    hide SessionOk, CreatedOk, Numbered;
    ConcludedNumbered(h, p, kp, t, msg);
  }

  // ----- records

  /** The record follows its exchange, and at its end the response fits it. */
  ghost predicate RecordOk(r: Record, secret: nat) {
    && Follows(r.handshake, secret, r.transcript)
    && (r.handshake.state == ResponseCreated ==>
          && IsResponseOf(r.response, r.transcript)
          && r.response.sender == r.handshake.localIndex && r.response.receiver == r.handshake.remoteIndex)
    && (r.handshake.state == ResponseConsumed ==>
          && IsResponseOf(r.response, r.transcript)
          && r.response.sender == r.handshake.remoteIndex && r.response.receiver == r.handshake.localIndex)
  }

  ghost predicate RecordsOk(records: map<Peer, Record>, active: map<Peer, nat>, secret: nat) {
    && active.Keys <= records.Keys
    && forall p :: p in records ==>
      RecordOk(records[p], secret) && (p in active <==> records[p].handshake.state != Zeroed)
  }

  lemma RecordUpdate(records: map<Peer, Record>, active: map<Peer, nat>, active': map<Peer, nat>, p: Peer, r: Record,
      secret: nat)
    requires RecordsOk(records, active, secret) && RecordOk(r, secret)
    requires (p in active' <==> r.handshake.state != Zeroed)
    requires forall q :: q != p ==> (q in active' <==> q in active)
    ensures RecordsOk(records[p := r], active', secret)
  {
    hide RecordOk;
    assert forall q :: q in records ==> RecordOk(records[q], secret);
  }

  // ----- initiations heard

  const HANDSHAKE_INITIATION_RATE := 20_000_000 // nanoseconds: fifty a second

  /** Each has a later timestamp than those before, and came long enough after them. */
  ghost predicate Spaced(heard: seq<Heard>) {
    forall i, j :: 0 <= i < j < |heard| ==>
      && heard[i].transcript.timestamp < heard[j].transcript.timestamp
      && heard[j].at - heard[i].at > HANDSHAKE_INITIATION_RATE
  }

  /** What was heard is spaced, and the record knows the last of it. */
  ghost predicate HeardOk(r: Record) {
    && Spaced(r.heard) && (forall i :: 0 <= i < |r.heard| ==> IsInitiationOf(r.heard[i].msg, r.heard[i].transcript))
    && (r.heard != [] ==>
          && r.heard[|r.heard| - 1].transcript.timestamp == r.handshake.lastTimestamp
          && r.heard[|r.heard| - 1].at == r.handshake.lastInitiationConsumption)
  }

  ghost predicate AllHeard(records: map<Peer, Record>) {
    forall p :: p in records ==> HeardOk(records[p])
  }

  /** Nothing heard, and nothing forgotten. */
  predicate SameHeard(r: Record, r': Record) {
    && r'.heard == r.heard && r'.handshake.lastTimestamp == r.handshake.lastTimestamp
    && r'.handshake.lastInitiationConsumption == r.handshake.lastInitiationConsumption
  }

  /** One more was heard, later than the last, and long enough after it. */
  lemma HeardMore(r: Record, r': Record, e: Heard)
    requires HeardOk(r) && IsInitiationOf(e.msg, e.transcript) && r'.heard == r.heard + [e]
    requires e.transcript.timestamp > r.handshake.lastTimestamp
    requires e.at - r.handshake.lastInitiationConsumption > HANDSHAKE_INITIATION_RATE
    requires r'.handshake.lastTimestamp == e.transcript.timestamp && r'.handshake.lastInitiationConsumption == e.at
    ensures HeardOk(r')
  {
    hide IsInitiationOf;
    forall i, j | 0 <= i < j < |r'.heard|
      ensures r'.heard[i].transcript.timestamp < r'.heard[j].transcript.timestamp
      ensures r'.heard[j].at - r'.heard[i].at > HANDSHAKE_INITIATION_RATE
    {
      if j == |r.heard| && i < j - 1 {
        assert r.heard[i].transcript.timestamp < r.heard[j - 1].transcript.timestamp;
      }
    }
  }

  /** No initiation is heard twice. */
  lemma HeardOnce(r: Record, i: nat, j: nat)
    requires HeardOk(r) && i < j < |r.heard|
    ensures r.heard[i].msg != r.heard[j].msg
  {
    hide IsInitiationOf;
    StartFixesTimestamp(r.heard[i].msg, r.heard[i].transcript, r.heard[j].msg, r.heard[j].transcript);
  }

  lemma StartFixesTimestamp(msg: MessageInitiation, t: Transcript, other: MessageInitiation, u: Transcript)
    requires IsInitiationOf(msg, t) && IsInitiationOf(other, u)
    ensures msg == other ==> t.timestamp == u.timestamp
  {
  }

  // ----- slots

  ghost predicate Inside(s: Slots, kps: set<Keypair>) {
    && (s.current != null ==> s.current in kps) && (s.previous != null ==> s.previous in kps)
    && (s.next != null ==> s.next in kps)
  }

  /** Every keypair in a slot was made here, and what sends was made as initiator or confirmed. */
  ghost predicate SlotsOk(view: map<Peer, Slots>, confirmed: set<Keypair>, kps: set<Keypair>) {
    forall p :: p in view ==> SlotOk(view[p], confirmed, kps)
  }

  ghost predicate SlotOk(s: Slots, confirmed: set<Keypair>, kps: set<Keypair>) {
    Inside(s, kps) && (s.current != null ==> s.current.isInitiator || s.current in confirmed)
  }

  lemma SlotUpdate(view: map<Peer, Slots>, confirmed: set<Keypair>, confirmed': set<Keypair>, kps: set<Keypair>,
      kps': set<Keypair>, p: Peer, s: Slots)
    requires SlotsOk(view, confirmed, kps) && confirmed <= confirmed' && kps <= kps' && SlotOk(s, confirmed', kps')
    ensures SlotsOk(view[p := s], confirmed', kps')
  {
    forall q | q in view && q != p ensures SlotOk(view[q], confirmed', kps') {
      assert SlotOk(view[q], confirmed, kps);
    }
  }

  /** A completed record gives a keypair of its exchange. */
  lemma RecordSession(r: Record, secret: nat, kp: Keypair, n: nat)
    requires RecordOk(r, secret) && (r.handshake.state == ResponseCreated || r.handshake.state == ResponseConsumed)
    requires kp.isInitiator == (r.handshake.state == ResponseConsumed)
    requires (kp.send, kp.receive) == SessionKeys(r.handshake.chainKey, kp.isInitiator)
    requires kp.localIndex == r.handshake.localIndex && kp.remoteIndex == r.handshake.remoteIndex
    ensures SessionOk(kp, Session(n, r.transcript, r.response), secret) && kp.localIndex != 0
  {
    hide SessionKeys, IsResponseOf, FinalChain, FinalHash;
  }

  // ----- two devices

  /** A keypair that one device made by accepting a response and one that another made
      by creating it: each side sends with what the other receives with, and each meant
      the other. The indices travel outside the box: each side has the other's exactly
      when that field arrived as it was sent. */
  lemma SessionsCross(h: History, secret: nat, k: Keypair, h': History, secret': nat, k': Keypair)
    requires Ledger(h, secret) && Ledger(h', secret') && k in h.made && k' in h'.made && k.isInitiator
    requires !k'.isInitiator
    requires h.made[k].response.empty == h'.made[k'].response.empty
    ensures k.send == k'.receive && k.receive == k'.send
    ensures k.localIndex == k'.remoteIndex <==> h.made[k].response.receiver == h'.made[k'].response.receiver
    ensures k.remoteIndex == k'.localIndex <==> h.made[k].response.sender == h'.made[k'].response.sender
    ensures h.made[k].transcript == h'.made[k'].transcript
    ensures h.made[k].transcript.initiator == secret && h.made[k].transcript.responder == secret'
  {
    hide IsResponseOf, FinalChain, SessionKeys, Numbered;
    BoxFixesTranscript(h.made[k].response, h.made[k].transcript, h'.made[k'].response, h'.made[k'].transcript);
    KeysCross(FinalChain(h.made[k].transcript), FinalChain(h.made[k].transcript));
    Mirrored(FinalChain(h.made[k].transcript));
  }

  lemma Mirrored(c: Term)
    ensures SessionKeys(c, true) == (SessionKeys(c, false).1, SessionKeys(c, false).0)
  {
  }

  /** A response whose box another device sealed was accepted in the exchange in which
      that device sealed it. */
  lemma AcceptedFrom(h: History, secret: nat, k: Keypair, h': History, secret': nat, msg: MessageResponse)
    requires Ledger(h, secret) && Ledger(h', secret') && k in h.made && k.isInitiator
    requires msg in h'.created && msg.empty == h.made[k].response.empty
    ensures h'.created[msg] == h.made[k].transcript && h.made[k].transcript.responder == secret'
  {
    hide IsResponseOf, SessionKeys, Numbered;
    BoxFixesTranscript(h.made[k].response, h.made[k].transcript, msg, h'.created[msg]);
  }
}
