/** The handshake in free terms: hashes, key derivations and sealed boxes are
    constructors, so two of them are equal only when made from equal parts; the
    shared secret of two keys does not depend on who computes it. */
module Noise {
  import opened Bitwise
  import opened Options

  /** A key anyone can compute with, or a point of low order, which is refused. */
  datatype PublicKey = Public(secret: nat) | LowOrder

  datatype Term =
    | Text(name: string)
    | Key(key: PublicKey)
    | Shared(a: nat, b: nat)
    | Psk(id: nat)
    | Stamp(time: nat)
    | Nothing
    | Hash(h: Term, data: Term)
    | Kdf(i: nat, chain: Term, input: Term)
    | Sealed(sealKey: Term, plain: Term, ad: Term)

  const INITIAL_CHAIN_KEY := Text("Noise_IKpsk2_25519_ChaChaPoly_BLAKE2s")
  const INITIAL_HASH := Hash(INITIAL_CHAIN_KEY, Text("WireGuard v1 zx2c4 Jason@zx2c4.com"))

  /** None when the other key is of low order. */
  function SharedSecret(secret: nat, key: PublicKey): Option<Term> {
    match key
    case LowOrder => None
    case Public(other) => Some(if secret <= other then Shared(secret, other) else Shared(other, secret))
  }

  lemma SharedCommutes(s: nat, t: nat)
    ensures SharedSecret(s, Public(t)) == SharedSecret(t, Public(s))
  {
  }

  function Open(key: Term, box: Term, ad: Term): Option<Term> {
    if box.Sealed? && box.sealKey == key && box.ad == ad then Some(box.plain) else None
  }

  // ----- messages

  const MESSAGE_INITIATION_TYPE: uint32 := 1
  const MESSAGE_RESPONSE_TYPE: uint32 := 2

  datatype MessageInitiation = MessageInitiation(kind: uint32, sender: uint32, ephemeral: PublicKey, static_: Term,
      timestamp: Term)
  datatype MessageResponse = MessageResponse(kind: uint32, sender: uint32, receiver: uint32, ephemeral: PublicKey,
      empty: Term)

  // ----- a handshake record

  datatype HandshakeState = Zeroed | InitiationCreated | InitiationConsumed | ResponseCreated | ResponseConsumed

  datatype Handshake = Handshake(
    state: HandshakeState, hash: Term, chainKey: Term, presharedKey: Term, localEphemeral: nat,
    localIndex: uint32, remoteIndex: uint32, remoteStatic: PublicKey, remoteEphemeral: PublicKey,
    lastTimestamp: nat, lastInitiationConsumption: int)
  {
    function MixHash(data: Term): Handshake {
      this.(hash := Hash(hash, data))
    }

    function MixKey(data: Term): Handshake {
      this.(chainKey := Kdf(1, chainKey, data))
    }

    function Clear(): Handshake {
      this.(localEphemeral := 0, remoteEphemeral := LowOrder, chainKey := Nothing, hash := Nothing, localIndex := 0,
        state := Zeroed)
    }
  }

  // ----- what the transcript is after each message, in closed form

  /** Everything the two sides of one exchange are to agree on. */
  datatype Transcript = Transcript(
    initiator: nat, responder: nat, initiatorEphemeral: nat, responderEphemeral: nat,
    presharedKey: Term, timestamp: nat)

  function DH(s: nat, t: nat): Term {
    SharedSecret(s, Public(t)).value
  }

  function ChainAfterEphemeral(e: PublicKey): Term {
    Kdf(1, INITIAL_CHAIN_KEY, Key(e))
  }

  function HashAfterEphemeral(responder: PublicKey, e: PublicKey): Term {
    Hash(Hash(INITIAL_HASH, Key(responder)), Key(e))
  }

  /** The chain key, and the boxes and hash, after an initiation made from these parts. */
  function InitChain(e: PublicKey, es: Term, ss: Term): Term {
    Kdf(1, Kdf(1, ChainAfterEphemeral(e), es), ss)
  }

  function StaticBox(responder: PublicKey, e: PublicKey, es: Term, static_: PublicKey): Term {
    Sealed(Kdf(2, ChainAfterEphemeral(e), es), Key(static_), HashAfterEphemeral(responder, e))
  }

  function StampBox(responder: PublicKey, e: PublicKey, es: Term, static_: PublicKey, ss: Term, stamp: nat): Term {
    Sealed(Kdf(2, Kdf(1, ChainAfterEphemeral(e), es), ss), Stamp(stamp),
           Hash(HashAfterEphemeral(responder, e), StaticBox(responder, e, es, static_)))
  }

  function InitHash(responder: PublicKey, e: PublicKey, es: Term, static_: PublicKey, ss: Term, stamp: nat): Term {
    Hash(Hash(HashAfterEphemeral(responder, e), StaticBox(responder, e, es, static_)),
      StampBox(responder, e, es, static_, ss, stamp))
  }

  /** The chain key just before the preshared key is mixed in. */
  function ResponseChain(initChain: Term, e: PublicKey, ee: Term, se: Term): Term {
    Kdf(1, Kdf(1, Kdf(1, initChain, Key(e)), ee), se)
  }

  function HashWithPsk(initHash: Term, e: PublicKey, chain: Term, psk: Term): Term {
    Hash(Hash(initHash, Key(e)), Kdf(2, chain, psk))
  }

  function EmptyBox(initHash: Term, e: PublicKey, chain: Term, psk: Term): Term {
    Sealed(Kdf(3, chain, psk), Nothing, HashWithPsk(initHash, e, chain, psk))
  }

  /** The transcript hash and the chain key at the end of an exchange. */
  function FinalHash(t: Transcript): Term {
    var h := InitHashOf(t);
    Hash(HashWithPsk(h, Public(t.responderEphemeral), ResponseChainOf(t), t.presharedKey),
         EmptyBox(h, Public(t.responderEphemeral), ResponseChainOf(t), t.presharedKey))
  }

  function InitChainOf(t: Transcript): Term {
    InitChain(Public(t.initiatorEphemeral), DH(t.initiatorEphemeral, t.responder), DH(t.initiator, t.responder))
  }

  function InitHashOf(t: Transcript): Term {
    InitHash(Public(t.responder), Public(t.initiatorEphemeral), DH(t.initiatorEphemeral, t.responder),
             Public(t.initiator), DH(t.initiator, t.responder), t.timestamp)
  }

  function ResponseChainOf(t: Transcript): Term {
    ResponseChain(InitChainOf(t), Public(t.responderEphemeral),
                  DH(t.initiatorEphemeral, t.responderEphemeral), DH(t.initiator, t.responderEphemeral))
  }

  function FinalChain(t: Transcript): Term {
    Kdf(1, ResponseChainOf(t), t.presharedKey)
  }

  /** Equal transcript hashes come from one exchange: same two identities, same two
      ephemeral keys, same preshared key, same timestamp. */
  lemma HashFixesTranscript(t: Transcript, u: Transcript)
    ensures FinalHash(t) == FinalHash(u) <==> t == u
  {
    if FinalHash(t) == FinalHash(u) {
      assert HashWithPsk(InitHashOf(t), Public(t.responderEphemeral), ResponseChainOf(t), t.presharedKey)
          == HashWithPsk(InitHashOf(u), Public(u.responderEphemeral), ResponseChainOf(u), u.presharedKey);
      assert InitHashOf(t) == InitHashOf(u);
      assert StampBox(Public(t.responder), Public(t.initiatorEphemeral), DH(t.initiatorEphemeral, t.responder),
        Public(t.initiator), DH(t.initiator, t.responder), t.timestamp)
          == StampBox(Public(u.responder), Public(u.initiatorEphemeral), DH(u.initiatorEphemeral, u.responder),
            Public(u.initiator), DH(u.initiator, u.responder), u.timestamp);
      assert StaticBox(Public(t.responder), Public(t.initiatorEphemeral), DH(t.initiatorEphemeral, t.responder),
        Public(t.initiator))
          == StaticBox(Public(u.responder), Public(u.initiatorEphemeral), DH(u.initiatorEphemeral, u.responder),
            Public(u.initiator));
    }
  }

  /** Equal chain keys come from one exchange too, but for the timestamp. */
  lemma ChainFixesKeys(t: Transcript, u: Transcript)
    ensures FinalChain(t) == FinalChain(u) <==> t.(timestamp := 0) == u.(timestamp := 0)
  {
    if FinalChain(t) == FinalChain(u) {
      assert ResponseChainOf(t) == ResponseChainOf(u);
      assert InitChainOf(t) == InitChainOf(u);
      assert ChainAfterEphemeral(Public(t.initiatorEphemeral)) == ChainAfterEphemeral(Public(u.initiatorEphemeral));
      SharedFixes(t.initiatorEphemeral, t.responder, u.responder);
      SharedFixes(t.responderEphemeral, t.initiator, u.initiator);
      SharedCommutes(t.responderEphemeral, t.initiator);
      SharedCommutes(u.responderEphemeral, u.initiator);
    }
  }

  lemma SharedFixes(s: nat, t: nat, u: nat)
    ensures DH(s, t) == DH(s, u) <==> t == u
  {
  }

  // ----- who can work out a key

  /** What can be worked out with some private keys and some preshared keys, all public
      keys, texts and timestamps being known: a shared secret takes one of its two keys. */
  predicate Derivable(x: Term, secrets: set<nat>, psks: set<nat>) {
    match x
    case Shared(a, b) => a in secrets || b in secrets
    case Psk(id) => id in psks
    case Hash(h, data) => Derivable(h, secrets, psks) && Derivable(data, secrets, psks)
    case Kdf(_, chain, input) => Derivable(chain, secrets, psks) && Derivable(input, secrets, psks)
    case Sealed(key, plain, ad) =>
      Derivable(key, secrets, psks) && Derivable(plain, secrets, psks) && Derivable(ad, secrets, psks)
    case _ => true
  }

  lemma SharedDerivable(s: nat, t: nat, secrets: set<nat>, psks: set<nat>)
    ensures Derivable(DH(s, t), secrets, psks) <==> s in secrets || t in secrets
  {
  }

  /** Of each of the four pairs of keys that the exchange combines one is among these: of
      initiator's ephemeral and responder's static, of the two static ones, of the two
      ephemeral ones, and of initiator's static and responder's ephemeral. */
  predicate OneOfEach(t: Transcript, secrets: set<nat>) {
    && (t.initiatorEphemeral in secrets || t.responder in secrets)
    && (t.initiator in secrets || t.responder in secrets)
    && (t.initiatorEphemeral in secrets || t.responderEphemeral in secrets)
    && (t.initiator in secrets || t.responderEphemeral in secrets)
  }

  lemma StepDerivable(i: nat, chain: Term, input: Term, secrets: set<nat>, psks: set<nat>)
    ensures Derivable(Kdf(i, chain, input), secrets, psks) <==>
      Derivable(chain, secrets, psks) && Derivable(input, secrets, psks)
  {
  }

  lemma ChainSecrets(t: Transcript, secrets: set<nat>, psks: set<nat>)
    ensures Derivable(FinalChain(t), secrets, psks) <==>
      OneOfEach(t, secrets) && Derivable(t.presharedKey, secrets, psks)
  {
    hide DH, Derivable;
    InitSecrets(t, secrets, psks);
    var ee, se := DH(t.initiatorEphemeral, t.responderEphemeral), DH(t.initiator, t.responderEphemeral);
    SharedDerivable(t.initiatorEphemeral, t.responderEphemeral, secrets, psks);
    SharedDerivable(t.initiator, t.responderEphemeral, secrets, psks);
    PublicDerivable(Public(t.responderEphemeral), secrets, psks);
    var c := Kdf(1, InitChainOf(t), Key(Public(t.responderEphemeral)));
    StepDerivable(1, InitChainOf(t), Key(Public(t.responderEphemeral)), secrets, psks);
    StepDerivable(1, c, ee, secrets, psks);
    StepDerivable(1, Kdf(1, c, ee), se, secrets, psks);
    StepDerivable(1, ResponseChainOf(t), t.presharedKey, secrets, psks);
  }

  lemma PublicDerivable(key: PublicKey, secrets: set<nat>, psks: set<nat>)
    ensures Derivable(Key(key), secrets, psks) && Derivable(Nothing, secrets, psks)
    ensures Derivable(INITIAL_CHAIN_KEY, secrets, psks)
  {
  }

  /** The session keys can be worked out exactly by who has one of each pair, and the
      preshared key. */
  lemma SessionSecrets(t: Transcript, isInitiator: bool, secrets: set<nat>, psks: set<nat>)
    ensures var keys := SessionKeys(FinalChain(t), isInitiator);
      Derivable(keys.0, secrets, psks) && Derivable(keys.1, secrets, psks) <==>
        OneOfEach(t, secrets) && Derivable(t.presharedKey, secrets, psks)
  {
    hide Derivable, FinalChain, OneOfEach;
    ChainSecrets(t, secrets, psks);
    PublicDerivable(LowOrder, secrets, psks);
    StepDerivable(1, FinalChain(t), Nothing, secrets, psks);
    StepDerivable(2, FinalChain(t), Nothing, secrets, psks);
  }

  lemma InitSecrets(t: Transcript, secrets: set<nat>, psks: set<nat>)
    ensures var c := Kdf(1, ChainAfterEphemeral(Public(t.initiatorEphemeral)), DH(t.initiatorEphemeral, t.responder));
      Derivable(c, secrets, psks) <==> t.initiatorEphemeral in secrets || t.responder in secrets
    ensures Derivable(InitChainOf(t), secrets, psks) <==>
      && (t.initiatorEphemeral in secrets || t.responder in secrets)
      && (t.initiator in secrets || t.responder in secrets)
  {
    hide DH, Derivable;
    var e, es, ss := Public(t.initiatorEphemeral), DH(t.initiatorEphemeral, t.responder), DH(t.initiator, t.responder);
    SharedDerivable(t.initiatorEphemeral, t.responder, secrets, psks);
    SharedDerivable(t.initiator, t.responder, secrets, psks);
    PublicDerivable(e, secrets, psks);
    StepDerivable(1, INITIAL_CHAIN_KEY, Key(e), secrets, psks);
    StepDerivable(1, ChainAfterEphemeral(e), es, secrets, psks);
    StepDerivable(1, Kdf(1, ChainAfterEphemeral(e), es), ss, secrets, psks);
  }

  /** The key a box is sealed with can be worked out. */
  predicate CanSeal(box: Term, secrets: set<nat>, psks: set<nat>) {
    box.Sealed? && Derivable(box.sealKey, secrets, psks)
  }

  /** The initiator's static key is sealed under the first of these, its timestamp under the
      first two, and the response under all. */
  lemma BoxSecrets(t: Transcript, first: MessageInitiation, second: MessageResponse, secrets: set<nat>, psks: set<nat>)
    requires IsInitiationOf(first, t) && IsResponseOf(second, t)
    ensures CanSeal(first.static_, secrets, psks) <==> t.initiatorEphemeral in secrets || t.responder in secrets
    ensures CanSeal(first.timestamp, secrets, psks) <==>
      && (t.initiatorEphemeral in secrets || t.responder in secrets)
      && (t.initiator in secrets || t.responder in secrets)
    ensures CanSeal(second.empty, secrets, psks) <==>
      OneOfEach(t, secrets) && Derivable(t.presharedKey, secrets, psks)
  {
    hide DH, Derivable, OneOfEach;
    var e, es, ss := Public(t.initiatorEphemeral), DH(t.initiatorEphemeral, t.responder), DH(t.initiator, t.responder);
    SharedDerivable(t.initiatorEphemeral, t.responder, secrets, psks);
    SharedDerivable(t.initiator, t.responder, secrets, psks);
    InitSecrets(t, secrets, psks);
    ChainSecrets(t, secrets, psks);
    PublicDerivable(e, secrets, psks);
    StepDerivable(1, INITIAL_CHAIN_KEY, Key(e), secrets, psks);
    StepDerivable(2, ChainAfterEphemeral(e), es, secrets, psks);
    StepDerivable(2, Kdf(1, ChainAfterEphemeral(e), es), ss, secrets, psks);
    StepDerivable(1, ResponseChainOf(t), t.presharedKey, secrets, psks);
    StepDerivable(3, ResponseChainOf(t), t.presharedKey, secrets, psks);
  }

  // ----- the initiator's first message, step by step

  /** Mixes the first message into the record; the boxes for the static key and the
      timestamp, unless the remote key is refused. */
  function BeginInitiation(start: Handshake, secret: nat, ephemeral: nat,
      now: nat): (r: (Handshake, Option<(Term, Term)>))
    ensures r.1.None? <==> start.remoteStatic.LowOrder?
    ensures r.0 == start.(hash := r.0.hash, chainKey := r.0.chainKey, localEphemeral := ephemeral)
  {
    var e := Public(ephemeral);
    var hs := start.(hash := INITIAL_HASH, chainKey := INITIAL_CHAIN_KEY, localEphemeral := ephemeral)
      .MixHash(Key(start.remoteStatic)).MixKey(Key(e)).MixHash(Key(e));
    var es := SharedSecret(ephemeral, hs.remoteStatic);
    if es.None? then (hs, None) else
    var key := Kdf(2, hs.chainKey, es.value);
    var static_ := Sealed(key, Key(Public(secret)), hs.hash);
    var hs2 := hs.MixKey(es.value).MixHash(static_);
    var ss := SharedSecret(secret, hs2.remoteStatic).value;
    var key2 := Kdf(2, hs2.chainKey, ss);
    var timestamp := Sealed(key2, Stamp(now), hs2.hash);
    (hs2.MixKey(ss), Some((static_, timestamp)))
  }

  lemma InitiationCloses(start: Handshake, secret: nat, ephemeral: nat, now: nat, index: uint32)
    requires start.remoteStatic.Public? && index != 0
    ensures var (hs, boxes) := BeginInitiation(start, secret, ephemeral, now);
      var t := Transcript(secret, start.remoteStatic.secret, ephemeral, 0, Nothing, now);
      && boxes.Some?
      && Follows(hs.(localIndex := index).MixHash(boxes.value.1).(state := InitiationCreated), secret, t)
      && IsInitiationOf(MessageInitiation(MESSAGE_INITIATION_TYPE, index, Public(ephemeral), boxes.value.0,
        boxes.value.1), t)
  {
  }

  /** No exchange was ever begun with a key that is refused. */
  lemma RefusedIsZeroed(hs: Handshake, secret: nat, t: Transcript)
    requires Follows(hs, secret, t) && hs.remoteStatic.LowOrder?
    ensures hs.state == Zeroed
  {
  }

  // ----- what a record says about its exchange

  /** The record is in the middle of, or at the end of, the exchange that t describes,
      held by the device with this static key. */
  ghost predicate Follows(hs: Handshake, secret: nat, t: Transcript) {
    match hs.state
    case Zeroed => true
    case InitiationCreated =>
      && t.initiator == secret && hs.remoteStatic == Public(t.responder) && hs.localEphemeral == t.initiatorEphemeral
      && hs.hash == InitHashOf(t) && hs.chainKey == InitChainOf(t) && hs.localIndex != 0
    case InitiationConsumed =>
      && t.responder == secret && hs.remoteStatic == Public(t.initiator)
      && hs.remoteEphemeral == Public(t.initiatorEphemeral)
      && hs.hash == InitHashOf(t) && hs.chainKey == InitChainOf(t)
    case ResponseCreated =>
      && t.responder == secret && hs.remoteStatic == Public(t.initiator) && hs.presharedKey == t.presharedKey
      && hs.hash == FinalHash(t) && hs.chainKey == FinalChain(t) && hs.localIndex != 0
    case ResponseConsumed =>
      && t.initiator == secret && hs.remoteStatic == Public(t.responder) && hs.presharedKey == t.presharedKey
      && hs.hash == FinalHash(t) && hs.chainKey == FinalChain(t) && hs.localIndex != 0
  }

  /** The message starts the exchange t. */
  ghost predicate IsInitiationOf(msg: MessageInitiation, t: Transcript) {
    var responder, e, es, ss := Public(t.responder), Public(t.initiatorEphemeral),
      DH(t.initiatorEphemeral, t.responder), DH(t.initiator, t.responder);
    && msg.kind == MESSAGE_INITIATION_TYPE && msg.ephemeral == e
    && msg.static_ == StaticBox(responder, e, es, Public(t.initiator))
    && msg.timestamp == StampBox(responder, e, es, Public(t.initiator), ss, t.timestamp)
  }

  /** The message ends the exchange t. */
  ghost predicate IsResponseOf(msg: MessageResponse, t: Transcript) {
    && msg.kind == MESSAGE_RESPONSE_TYPE && msg.ephemeral == Public(t.responderEphemeral)
    && msg.empty == EmptyBox(InitHashOf(t), Public(t.responderEphemeral), ResponseChainOf(t), t.presharedKey)
  }

  /** One response ends one exchange only: its box alone says which, whatever becomes of
      the indices, which are outside. */
  lemma BoxFixesTranscript(msg: MessageResponse, t: Transcript, other: MessageResponse, u: Transcript)
    requires IsResponseOf(msg, t) && IsResponseOf(other, u) && msg.empty == other.empty
    ensures t == u
  {
    assert FinalHash(t) == FinalHash(u);
    HashFixesTranscript(t, u);
  }

  /** Acceptance implies agreement: an initiator that took a response, and the responder
      that built it, hold the same transcript hash and the same chain key, and are
      each other's peers. */
  lemma Agreement(msg: MessageResponse, initiator: Handshake, initiatorSecret: nat, t: Transcript,
      responder: Handshake, responderSecret: nat, u: Transcript)
    requires initiator.state == ResponseConsumed && Follows(initiator, initiatorSecret, t) && IsResponseOf(msg, t)
    requires responder.state == ResponseCreated && Follows(responder, responderSecret, u) && IsResponseOf(msg, u)
    ensures initiator.hash == responder.hash && initiator.chainKey == responder.chainKey
    ensures initiator.remoteStatic == Public(responderSecret) && responder.remoteStatic == Public(initiatorSecret)
    ensures initiator.presharedKey == responder.presharedKey
  {
    BoxFixesTranscript(msg, t, msg, u);
  }

  /** The keys of a session: what one side sends with, the other receives with. */
  function SessionKeys(chainKey: Term, isInitiator: bool): (Term, Term) {
    if isInitiator then (Kdf(1, chainKey, Nothing), Kdf(2, chainKey, Nothing))
    else (Kdf(2, chainKey, Nothing), Kdf(1, chainKey, Nothing))
  }

  /** Session keys match crosswise exactly when the chain keys are equal. */
  lemma KeysCross(c: Term, d: Term)
    ensures SessionKeys(c, true).0 == SessionKeys(d, false).1 <==> c == d
    ensures SessionKeys(c, true).1 == SessionKeys(d, false).0 <==> c == d
    ensures SessionKeys(c, true).0 != SessionKeys(d, true).1
  {
  }

  // ----- the responder reads the first message, step by step

  /** The sender's static key, if the first box opens, with hash and chain key so far. */
  function OpenStatic(msg: MessageInitiation, secret: nat): Option<(PublicKey, Term, Term)> {
    if msg.kind != MESSAGE_INITIATION_TYPE then None else
    var hash := Hash(Hash(INITIAL_HASH, Key(Public(secret))), Key(msg.ephemeral));
    var chain := Kdf(1, INITIAL_CHAIN_KEY, Key(msg.ephemeral));
    var es := SharedSecret(secret, msg.ephemeral);
    if es.None? then None else
    var box := Open(Kdf(2, chain, es.value), msg.static_, hash);
    if box.None? || !box.value.Key? then None
    else Some((box.value.key, Hash(hash, msg.static_), Kdf(1, chain, es.value)))
  }

  /** The timestamp, if the second box opens, with hash and chain key so far. */
  function OpenStamp(msg: MessageInitiation, hash: Term, chain: Term, ss: Term): Option<(nat, Term, Term)> {
    var box := Open(Kdf(2, chain, ss), msg.timestamp, hash);
    if box.None? || !box.value.Stamp? then None
    else Some((box.value.time, Hash(hash, msg.timestamp), Kdf(1, chain, ss)))
  }

  /** Both boxes open exactly for the initiations of an exchange with this device, and
      the record that results follows that exchange. */
  lemma InitiationOpens(msg: MessageInitiation, secret: nat, t: Transcript)
    requires t.responder == secret
    ensures IsInitiationOf(msg, t) <==>
      && msg.ephemeral == Public(t.initiatorEphemeral)
      && OpenStatic(msg, secret).Some? && OpenStatic(msg, secret).value.0 == Public(t.initiator)
      && var (_, hash, chain) := OpenStatic(msg, secret).value;
      var stamped := OpenStamp(msg, hash, chain, DH(secret, t.initiator));
      stamped.Some? && stamped.value.0 == t.timestamp
    ensures IsInitiationOf(msg, t) ==>
      var (_, hash, chain) := OpenStatic(msg, secret).value;
      OpenStamp(msg, hash, chain, DH(secret, t.initiator)) == Some((t.timestamp, InitHashOf(t), InitChainOf(t)))
  {
    SharedCommutes(secret, t.initiatorEphemeral);
    SharedCommutes(secret, t.initiator);
  }

  // ----- the response, step by step

  /** Mixes the response into the record; the empty box, unless a key is refused. */
  function BeginResponse(start: Handshake, ephemeral: nat): (r: (Handshake, Option<Term>))
    ensures r.0 == start.(hash := r.0.hash, chainKey := r.0.chainKey, localEphemeral := ephemeral)
  {
    var e := Public(ephemeral);
    var hs := start.(localEphemeral := ephemeral).MixHash(Key(e)).MixKey(Key(e));
    var ee := SharedSecret(ephemeral, hs.remoteEphemeral);
    if ee.None? then (hs, None) else
    var hs2 := hs.MixKey(ee.value);
    var se := SharedSecret(ephemeral, hs.remoteStatic);
    if se.None? then (hs2, None) else
    var hs3 := hs2.MixKey(se.value);
    var tau, key := Kdf(2, hs3.chainKey, hs3.presharedKey), Kdf(3, hs3.chainKey, hs3.presharedKey);
    var hs4 := hs3.MixKey(hs3.presharedKey).MixHash(tau);
    var empty := Sealed(key, Nothing, hs4.hash);
    (hs4.MixHash(empty), Some(empty))
  }

  lemma ResponseCloses(start: Handshake, secret: nat, ephemeral: nat, t: Transcript)
    requires start.state == InitiationConsumed && Follows(start, secret, t)
    ensures var (hs, box) := BeginResponse(start, ephemeral);
      var u := t.(responderEphemeral := ephemeral, presharedKey := start.presharedKey);
      && box.Some?
      && (start.localIndex != 0 ==> Follows(hs.(state := ResponseCreated), secret, u))
      && forall sender, receiver :: IsResponseOf(MessageResponse(MESSAGE_RESPONSE_TYPE, sender, receiver,
        Public(ephemeral), box.value), u)
  {
  }

  /** The initiator's hash and chain key after the response, if its box opens. */
  function OpenResponse(hs: Handshake, secret: nat, msg: MessageResponse): Option<(Term, Term)> {
    var hash := Hash(hs.hash, Key(msg.ephemeral));
    var chain := Kdf(1, hs.chainKey, Key(msg.ephemeral));
    var ee, se := SharedSecret(hs.localEphemeral, msg.ephemeral), SharedSecret(secret, msg.ephemeral);
    if ee.None? || se.None? then None else
    var chain2 := Kdf(1, Kdf(1, chain, ee.value), se.value);
    var tau, key := Kdf(2, chain2, hs.presharedKey), Kdf(3, chain2, hs.presharedKey);
    var hash2 := Hash(hash, tau);
    if Open(key, msg.empty, hash2) != Some(Nothing) then None
    else Some((Hash(hash2, msg.empty), Kdf(1, chain2, hs.presharedKey)))
  }

  /** What the exchange becomes for an initiator that takes this response. */
  ghost function WithResponse(t: Transcript, hs: Handshake, msg: MessageResponse): Transcript
    requires msg.ephemeral.Public?
  {
    t.(responderEphemeral := msg.ephemeral.secret, presharedKey := hs.presharedKey)
  }

  /** The box opens exactly for the response that ends the initiator's own exchange. */
  lemma ResponseOpens(hs: Handshake, secret: nat, t: Transcript, msg: MessageResponse)
    requires hs.state == InitiationCreated && Follows(hs, secret, t) && msg.kind == MESSAGE_RESPONSE_TYPE
    ensures OpenResponse(hs, secret, msg).Some? <==>
      msg.ephemeral.Public? && IsResponseOf(msg, WithResponse(t, hs, msg))
    ensures OpenResponse(hs, secret, msg).Some? ==>
      var u := WithResponse(t, hs, msg);
      && OpenResponse(hs, secret, msg).value == (FinalHash(u), FinalChain(u))
      && Follows(hs.(hash := FinalHash(u), chainKey := FinalChain(u), remoteIndex := msg.sender,
        state := ResponseConsumed), secret, u)
  {
    if msg.ephemeral.Public? {
      SharedCommutes(hs.localEphemeral, msg.ephemeral.secret);
      SharedCommutes(secret, msg.ephemeral.secret);
    }
  }
}
