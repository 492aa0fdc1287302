/** Who owns an outbound element and its message buffer: the pools, the TUN reader,
    a queue of a peer, or a goroutine that has taken it from one queue and not yet put
    it into another. A step is one operation on a channel, one draw of a nonce or one
    look at whether the peer runs, with what the goroutine does before its next. */
module Ownership {
  import opened Bitwise
  import SendNonce

  const QUEUE_STAGED_SIZE := 128
  const QUEUE_OUTBOUND_SIZE := 1024

  /** An element in use, and the buffer it has been given. */
  datatype Handle = Handle(elem: nat, buffer: nat)

  type Container = seq<Handle>

  datatype PeerQueues = PeerQueues(gathered: Container, staged: seq<Container>, outbound: seq<Container>, running: bool)

  /** What a goroutine has in hand, and where it is. */
  datatype Hand =
    | Idle
    | Staging(peer: nat, c: Container, rest: Container, full: bool) // to stage c, or make room; then to send the rest
    | Assigning(peer: nat, todo: Container, kept: Container, over: Container) // drawing nonces
    | Sending(peer: nat, kept: Container)  // about to look whether the peer runs
    | Pushing(peer: nat, kept: Container)  // about to put the container into the outbound queue
    | Keeping(peer: nat, h: Handle)        // about to stage a keepalive
    | Transmitting(c: Container)           // the sequential sender at work

  /** What the pools hold is counted: an element put back twice would be there twice. */
  datatype State = State(elemPool: multiset<nat>, bufferPool: multiset<nat>, nextElem: nat, nextBuffer: nat,
                         slots: seq<Handle>, peers: seq<PeerQueues>, hands: seq<Hand>)

  // ----- counting

  function IdOf(h: Handle, elems: bool): nat {
    if elems then h.elem else h.buffer
  }

  /** The elements, or the buffers, of a container. */
  function Ids(c: Container, elems: bool): multiset<nat> {
    if c == [] then multiset{} else Ids(c[1..], elems) + multiset{IdOf(c[0], elems)}
  }

  /** How often x is among them. */
  function In(c: Container, x: nat, elems: bool): nat {
    Ids(c, elems)[x]
  }

  function InQueue(q: seq<Container>, x: nat, elems: bool): nat {
    if q == [] then 0 else In(q[0], x, elems) + InQueue(q[1..], x, elems)
  }

  function InPeer(p: PeerQueues, x: nat, elems: bool): nat {
    In(p.gathered, x, elems) + InQueue(p.staged, x, elems) + InQueue(p.outbound, x, elems)
  }

  function InPeers(ps: seq<PeerQueues>, x: nat, elems: bool): nat {
    if ps == [] then 0 else InPeer(ps[0], x, elems) + InPeers(ps[1..], x, elems)
  }

  function Held(h: Hand): Container {
    match h
    case Idle => []
    case Staging(_, c, rest, _) => c + rest
    case Assigning(_, todo, kept, over) => todo + kept + over
    case Sending(_, kept) => kept
    case Pushing(_, kept) => kept
    case Keeping(_, h) => [h]
    case Transmitting(c) => c
  }

  function InHands(hs: seq<Hand>, x: nat, elems: bool): nat {
    if hs == [] then 0 else In(Held(hs[0]), x, elems) + InHands(hs[1..], x, elems)
  }

  function Pool(s: State, elems: bool): multiset<nat> {
    if elems then s.elemPool else s.bufferPool
  }

  function Made(s: State, elems: bool): nat {
    if elems then s.nextElem else s.nextBuffer
  }

  /** How often x is in use. */
  function InUse(slots: seq<Handle>, peers: seq<PeerQueues>, hands: seq<Hand>, x: nat, elems: bool): nat {
    In(slots, x, elems) + InPeers(peers, x, elems) + InHands(hands, x, elems)
  }

  /** How often x is in any place at all. */
  function Everywhere(s: State, x: nat, elems: bool): nat {
    Pool(s, elems)[x] + InUse(s.slots, s.peers, s.hands, x, elems)
  }

  /** Exactly the elements and buffers made so far exist, each in one place. */
  ghost predicate Conserved(s: State) {
    forall x: nat, elems: bool :: Everywhere(s, x, elems) == if x < Made(s, elems) then 1 else 0
  }

  lemma {:induction false} InConcat(a: Container, b: Container, x: nat, elems: bool)
    ensures In(a + b, x, elems) == In(a, x, elems) + In(b, x, elems)
  {
    if a == [] {
      assert a + b == b;
    } else {
      assert (a + b)[1..] == a[1..] + b;
      InConcat(a[1..], b, x, elems);
    }
  }

  function One(h: Handle, x: nat, elems: bool): nat {
    if IdOf(h, elems) == x then 1 else 0
  }

  lemma InOne(h: Handle, x: nat, elems: bool)
    ensures In([h], x, elems) == One(h, x, elems)
  {
    assert [h][1..] == [] && Ids([h][1..], elems) == multiset{};
  }

  lemma {:induction false} InUpdate(c: Container, i: nat, h: Handle, x: nat, elems: bool)
    requires i < |c|
    ensures In(c[i := h], x, elems) + One(c[i], x, elems) == In(c, x, elems) + One(h, x, elems)
  {
    if i == 0 {
      assert c[i := h][1..] == c[1..];
    } else {
      assert c[i := h][1..] == c[1..][i - 1 := h];
      InUpdate(c[1..], i - 1, h, x, elems);
    }
  }

  lemma {:induction false} QueueConcat(q: seq<Container>, r: seq<Container>, x: nat, elems: bool)
    ensures InQueue(q + r, x, elems) == InQueue(q, x, elems) + InQueue(r, x, elems)
  {
    if q == [] {
      assert q + r == r;
    } else {
      assert (q + r)[1..] == q[1..] + r;
      QueueConcat(q[1..], r, x, elems);
    }
  }

  lemma {:induction false} PeersUpdate(ps: seq<PeerQueues>, p: nat, y: PeerQueues, x: nat, elems: bool)
    requires p < |ps|
    ensures InPeers(ps[p := y], x, elems) + InPeer(ps[p], x, elems) == InPeers(ps, x, elems) + InPeer(y, x, elems)
  {
    if p == 0 {
      assert ps[p := y][1..] == ps[1..];
    } else {
      assert ps[p := y][1..] == ps[1..][p - 1 := y];
      PeersUpdate(ps[1..], p - 1, y, x, elems);
    }
  }

  lemma {:induction false} HandsUpdate(hs: seq<Hand>, g: nat, h: Hand, x: nat, elems: bool)
    requires g < |hs|
    ensures InHands(hs[g := h], x, elems) + In(Held(hs[g]), x, elems) == InHands(hs, x, elems) + In(Held(h), x, elems)
  {
    if g == 0 {
      assert hs[g := h][1..] == hs[1..];
    } else {
      assert hs[g := h][1..] == hs[1..][g - 1 := h];
      HandsUpdate(hs[1..], g - 1, h, x, elems);
    }
  }

  // ----- the pieces steps are made of

  /** What is left of a pool when one is taken, and the next number when one is made. */
  function Taken(pool: multiset<nat>, id: nat): multiset<nat> {
    if id in pool then pool - multiset{id} else pool
  }

  function NextAfter(pool: multiset<nat>, next: nat, id: nat): nat {
    if id in pool then next else next + 1
  }

  /** An element and a buffer from the pools, or new ones when a pool is empty. */
  function NewOutboundElement(s: State, elem: nat, buffer: nat): (State, Handle)
    requires elem in s.elemPool || elem == s.nextElem
    requires buffer in s.bufferPool || buffer == s.nextBuffer
  {
    (s.(elemPool := Taken(s.elemPool, elem), nextElem := NextAfter(s.elemPool, s.nextElem, elem),
        bufferPool := Taken(s.bufferPool, buffer), nextBuffer := NextAfter(s.bufferPool, s.nextBuffer, buffer)),
     Handle(elem, buffer))
  }

  /** Puts buffers and elements of a container back. */
  function Freed(s: State, c: Container): State {
    s.(elemPool := s.elemPool + Ids(c, true), bufferPool := s.bufferPool + Ids(c, false))
  }

  // ----- the steps

  datatype Step =
    | ReadPacket(slot: nat, peer: nat, elem: nat, buffer: nat) // the reader routes a packet, and refills its slot
    | Dispatch(g: nat, peer: nat)          // what was gathered for a peer is to be staged, or dropped
    | Keepalive(g: nat, peer: nat, elem: nat, buffer: nat) // a keepalive is made if nothing is staged
    | StageKeepalive(g: nat)               // and staged, or dropped if there is no room
    | StagePush(g: nat)                    // the container is staged if there is room
    | StageEvict(g: nat)                   // the oldest staged container is dropped, if there is one
    | Receive(g: nat, peer: nat)           // the oldest staged container is taken, to be sent
    | Draw(g: nat, nonce: uint64)          // its next element is given a nonce, or set aside
    | LookRunning(g: nat)                  // a stopped peer's container is dropped
    | Push(g: nat)                         // the container goes out
    | TakeOutbound(g: nat, peer: nat)
    | Transmitted(g: nat)
    | FlushStaged(peer: nat)               // one turn of the flushing loops
    | FlushOutbound(peer: nat)
    | SetRunning(peer: nat, running: bool)
    | ReaderExit                           // the reader gives its slots back

  predicate CanGet(s: State, elem: nat, buffer: nat) {
    && (elem in s.elemPool || elem == s.nextElem)
    && (buffer in s.bufferPool || buffer == s.nextBuffer)
  }

  predicate IsIdle(s: State, g: nat) {
    g < |s.hands| && s.hands[g] == Idle
  }

  predicate Enabled(s: State, st: Step) {
    match st
    case ReadPacket(slot, p, elem, buffer) => slot < |s.slots| && p < |s.peers| && CanGet(s, elem, buffer)
    case Dispatch(g, p) => IsIdle(s, g) && p < |s.peers| && s.peers[p].gathered != []
    case Keepalive(g, p, elem, buffer) =>
      IsIdle(s, g) && p < |s.peers| && CanGet(s, elem, buffer) && s.peers[p].staged == [] && s.peers[p].running
    case StageKeepalive(g) => g < |s.hands| && s.hands[g].Keeping? && s.hands[g].peer < |s.peers|
    case StagePush(g) => g < |s.hands| && s.hands[g].Staging? && !s.hands[g].full && s.hands[g].peer < |s.peers|
    case StageEvict(g) => g < |s.hands| && s.hands[g].Staging? && s.hands[g].full && s.hands[g].peer < |s.peers|
    case Receive(g, p) => IsIdle(s, g) && p < |s.peers| && s.peers[p].staged != []
    case Draw(g, _) => g < |s.hands| && s.hands[g].Assigning? && s.hands[g].todo != []
    case LookRunning(g) => g < |s.hands| && s.hands[g].Sending? && s.hands[g].peer < |s.peers|
    case Push(g) => g < |s.hands| && s.hands[g].Pushing? && s.hands[g].peer < |s.peers|
                    && |s.peers[s.hands[g].peer].outbound| < QUEUE_OUTBOUND_SIZE
    case TakeOutbound(g, p) => IsIdle(s, g) && p < |s.peers| && s.peers[p].outbound != []
    case Transmitted(g) => g < |s.hands| && s.hands[g].Transmitting?
    case FlushStaged(p) => p < |s.peers| && s.peers[p].staged != []
    case FlushOutbound(p) => p < |s.peers| && s.peers[p].outbound != []
    case SetRunning(p, _) => p < |s.peers|
    case ReaderExit => true
  }

  function WithPeer(s: State, p: nat, y: PeerQueues): State
    requires p < |s.peers|
  {
    s.(peers := s.peers[p := y])
  }

  function WithHand(s: State, g: nat, h: Hand): State
    requires g < |s.hands|
  {
    s.(hands := s.hands[g := h])
  }

  /** Where a sender goes from a container of which this is left to draw, kept and set aside. */
  function Onward(p: nat, todo: Container, kept: Container, over: Container): Hand {
    if todo != [] then Assigning(p, todo, kept, over)
    else if over != [] then Staging(p, over, kept, false)
    else AfterStaging(p, kept)
  }

  function AfterStaging(p: nat, rest: Container): Hand {
    if rest == [] then Idle else Sending(p, rest)
  }

  function After(s: State, st: Step): State
    requires Enabled(s, st)
  {
    match st
    case ReadPacket(slot, p, elem, buffer) =>
      var (s1, h) := NewOutboundElement(s, elem, buffer);
      WithPeer(s1.(slots := s.slots[slot := h]), p, s.peers[p].(gathered := s.peers[p].gathered + [s.slots[slot]]))
    case Dispatch(g, p) =>
      var c, s1 := s.peers[p].gathered, WithPeer(s, p, s.peers[p].(gathered := []));
      if s.peers[p].running then WithHand(s1, g, Staging(p, c, [], false)) else Freed(s1, c)
    case Keepalive(g, p, elem, buffer) =>
      var (s1, h) := NewOutboundElement(s, elem, buffer);
      WithHand(s1, g, Keeping(p, h))
    case StageKeepalive(g) =>
      var p, h, s1 := s.hands[g].peer, s.hands[g].h, WithHand(s, g, Idle);
      if |s.peers[p].staged| < QUEUE_STAGED_SIZE then WithPeer(s1, p, s.peers[p].(staged := s.peers[p].staged + [[h]]))
      else Freed(s1, [h])
    case StagePush(g) =>
      var h := s.hands[g];
      var q := s.peers[h.peer].staged;
      if |q| < QUEUE_STAGED_SIZE then
        WithPeer(WithHand(s, g, AfterStaging(h.peer, h.rest)), h.peer, s.peers[h.peer].(staged := q + [h.c]))
      else WithHand(s, g, h.(full := true))
    case StageEvict(g) =>
      var h, s1 := s.hands[g], WithHand(s, g, s.hands[g].(full := false));
      if s.peers[h.peer].staged == [] then s1 else DropStaged(s1, h.peer)
    case Receive(g, p) =>
      var q := s.peers[p].staged;
      WithHand(WithPeer(s, p, s.peers[p].(staged := q[1..])), g, Onward(p, q[0], [], []))
    case Draw(g, nonce) =>
      var h := s.hands[g];
      var first, todo := [h.todo[0]], h.todo[1..];
      WithHand(s, g, if nonce < SendNonce.REJECT_AFTER_MESSAGES then Onward(h.peer, todo, h.kept + first, h.over)
                     else Onward(h.peer, todo, h.kept, h.over + first))
    case LookRunning(g) =>
      var h := s.hands[g];
      if s.peers[h.peer].running then WithHand(s, g, Pushing(h.peer, h.kept)) else Freed(WithHand(s, g, Idle), h.kept)
    case Push(g) =>
      var h := s.hands[g];
      WithPeer(WithHand(s, g, Idle), h.peer, s.peers[h.peer].(outbound := s.peers[h.peer].outbound + [h.kept]))
    case TakeOutbound(g, p) =>
      var q := s.peers[p].outbound;
      WithHand(WithPeer(s, p, s.peers[p].(outbound := q[1..])), g, Transmitting(q[0]))
    case Transmitted(g) => Freed(WithHand(s, g, Idle), s.hands[g].c)
    case FlushStaged(p) => DropStaged(s, p)
    case FlushOutbound(p) =>
      Freed(WithPeer(s, p, s.peers[p].(outbound := s.peers[p].outbound[1..])), s.peers[p].outbound[0])
    case SetRunning(p, running) => WithPeer(s, p, s.peers[p].(running := running))
    case ReaderExit => Freed(s.(slots := []), s.slots)
  }

  /** The oldest staged container is taken and freed. */
  function DropStaged(s: State, p: nat): State
    requires p < |s.peers| && s.peers[p].staged != []
  {
    Freed(WithPeer(s, p, s.peers[p].(staged := s.peers[p].staged[1..])), s.peers[p].staged[0])
  }

  // ----- every step conserves

  lemma FreedCount(s: State, c: Container, x: nat, elems: bool)
    ensures Everywhere(Freed(s, c), x, elems) == Everywhere(s, x, elems) + In(c, x, elems)
  {
  }

  lemma WithPeerCount(s: State, p: nat, y: PeerQueues, x: nat, elems: bool)
    requires p < |s.peers|
    ensures Everywhere(WithPeer(s, p, y), x, elems) + InPeer(s.peers[p], x, elems)
         == Everywhere(s, x, elems) + InPeer(y, x, elems)
  {
    PeersUpdate(s.peers, p, y, x, elems);
  }

  lemma WithHandCount(s: State, g: nat, h: Hand, x: nat, elems: bool)
    requires g < |s.hands|
    ensures Everywhere(WithHand(s, g, h), x, elems) + In(Held(s.hands[g]), x, elems)
         == Everywhere(s, x, elems) + In(Held(h), x, elems)
  {
    HandsUpdate(s.hands, g, h, x, elems);
  }

  lemma PushedCount(q: seq<Container>, c: Container, x: nat, elems: bool)
    ensures InQueue(q + [c], x, elems) == InQueue(q, x, elems) + In(c, x, elems)
  {
    QueueConcat(q, [c], x, elems);
    assert [c][1..] == [];
  }

  lemma OnwardCount(p: nat, todo: Container, kept: Container, over: Container, x: nat, elems: bool)
    ensures In(Held(Onward(p, todo, kept, over)), x, elems)
      == In(todo, x, elems) + In(kept, x, elems) + In(over, x, elems)
  {
    InConcat(todo + kept, over, x, elems);
    InConcat(todo, kept, x, elems);
    InConcat(over, kept, x, elems);
  }

  /** A new handle: in no place yet, and its ids gone from the pools, or new. */
  lemma NewCount(s: State, elem: nat, buffer: nat, x: nat, elems: bool)
    requires CanGet(s, elem, buffer)
    ensures var (s', h) := NewOutboundElement(s, elem, buffer);
      && s'.slots == s.slots && s'.peers == s.peers && s'.hands == s.hands
      && Everywhere(s', x, elems) + One(h, x, elems) == Everywhere(s, x, elems) + Makes(s, s', x, elems)
  {
    hide InUse, Taken, NextAfter;
    TakenCount(s.elemPool, s.nextElem, elem, x);
    TakenCount(s.bufferPool, s.nextBuffer, buffer, x);
  }

  lemma TakenCount(pool: multiset<nat>, next: nat, id: nat, x: nat)
    requires id in pool || id == next
    ensures Taken(pool, id)[x] + (if id == x then 1 else 0)
         == pool[x] + if next <= x < NextAfter(pool, next, id) then 1 else 0
  {
  }

  /** The step makes x. */
  function Makes(s: State, s': State, x: nat, elems: bool): nat {
    if Made(s, elems) <= x < Made(s', elems) then 1 else 0
  }

  lemma ReadCount(s: State, slot: nat, p: nat, elem: nat, buffer: nat, x: nat, elems: bool)
    requires Enabled(s, ReadPacket(slot, p, elem, buffer))
    ensures var s' := After(s, ReadPacket(slot, p, elem, buffer));
      Everywhere(s', x, elems) == Everywhere(s, x, elems) + Makes(s, s', x, elems)
  {
    hide Ids, NewOutboundElement, InPeers, InQueue, InHands;
    NewCount(s, elem, buffer, x, elems);
    var (s1, h) := NewOutboundElement(s, elem, buffer);
    var s2 := s1.(slots := s.slots[slot := h]);
    InUpdate(s.slots, slot, h, x, elems);
    var c := s.peers[p].gathered;
    InConcat(c, [s.slots[slot]], x, elems);
    InOne(s.slots[slot], x, elems);
    WithPeerCount(s2, p, s.peers[p].(gathered := c + [s.slots[slot]]), x, elems);
  }

  lemma KeepaliveCount(s: State, g: nat, p: nat, elem: nat, buffer: nat, x: nat, elems: bool)
    requires Enabled(s, Keepalive(g, p, elem, buffer))
    ensures var s' := After(s, Keepalive(g, p, elem, buffer));
      Everywhere(s', x, elems) == Everywhere(s, x, elems) + Makes(s, s', x, elems)
  {
    hide Ids, NewOutboundElement, InPeers, InHands;
    NewCount(s, elem, buffer, x, elems);
    var (s1, h) := NewOutboundElement(s, elem, buffer);
    InOne(h, x, elems);
    WithHandCount(s1, g, Keeping(p, h), x, elems);
    InNone(x, elems);
  }

  lemma InNone(x: nat, elems: bool)
    ensures In([], x, elems) == 0
  {
  }

  lemma DispatchCount(s: State, g: nat, p: nat, x: nat, elems: bool)
    requires Enabled(s, Dispatch(g, p))
    ensures var s' := After(s, Dispatch(g, p)); Everywhere(s', x, elems) == Everywhere(s, x, elems)
  {
    hide Ids, InPeers, InHands, In;
    var c, s1 := s.peers[p].gathered, WithPeer(s, p, s.peers[p].(gathered := []));
    WithPeerCount(s, p, s.peers[p].(gathered := []), x, elems);
    InNone(x, elems);
    if s.peers[p].running {
      WithHandCount(s1, g, Staging(p, c, [], false), x, elems);
      assert c + [] == c;
    } else {
      FreedCount(s1, c, x, elems);
    }
  }

  lemma StageKeepaliveCount(s: State, g: nat, x: nat, elems: bool)
    requires Enabled(s, StageKeepalive(g))
    ensures Everywhere(After(s, StageKeepalive(g)), x, elems) == Everywhere(s, x, elems)
  {
    hide Ids, InPeers, InHands, In, InQueue;
    var p, h, s1 := s.hands[g].peer, s.hands[g].h, WithHand(s, g, Idle);
    var q := s.peers[p].staged;
    WithHandCount(s, g, Idle, x, elems);
    InNone(x, elems);
    PushedCount(q, [h], x, elems);
    WithPeerCount(s1, p, s.peers[p].(staged := q + [[h]]), x, elems);
    FreedCount(s1, [h], x, elems);
  }

  lemma StagePushCount(s: State, g: nat, x: nat, elems: bool)
    requires Enabled(s, StagePush(g))
    ensures Everywhere(After(s, StagePush(g)), x, elems) == Everywhere(s, x, elems)
  {
    hide Ids, InPeers, InHands, In, InQueue;
    var h := s.hands[g];
    var q := s.peers[h.peer].staged;
    InConcat(h.c, h.rest, x, elems);
    InNone(x, elems);
    if |q| < QUEUE_STAGED_SIZE {
      var s1 := WithHand(s, g, AfterStaging(h.peer, h.rest));
      WithHandCount(s, g, AfterStaging(h.peer, h.rest), x, elems);
      PushedCount(q, h.c, x, elems);
      WithPeerCount(s1, h.peer, s.peers[h.peer].(staged := q + [h.c]), x, elems);
    } else {
      WithHandCount(s, g, h.(full := true), x, elems);
    }
  }

  lemma DropCount(s: State, p: nat, x: nat, elems: bool)
    requires p < |s.peers| && s.peers[p].staged != []
    ensures Everywhere(DropStaged(s, p), x, elems) == Everywhere(s, x, elems)
  {
    hide Ids, InPeers, InHands, In;
    var y := s.peers[p].(staged := s.peers[p].staged[1..]);
    WithPeerCount(s, p, y, x, elems);
    FreedCount(WithPeer(s, p, y), s.peers[p].staged[0], x, elems);
  }

  lemma StageEvictCount(s: State, g: nat, x: nat, elems: bool)
    requires Enabled(s, StageEvict(g))
    ensures Everywhere(After(s, StageEvict(g)), x, elems) == Everywhere(s, x, elems)
  {
    hide Ids, InPeers, InHands, In, InQueue;
    var h := s.hands[g];
    var s1 := WithHand(s, g, h.(full := false));
    WithHandCount(s, g, h.(full := false), x, elems);
    if s.peers[h.peer].staged != [] {
      DropCount(s1, h.peer, x, elems);
    }
  }

  lemma ReceiveCount(s: State, g: nat, p: nat, x: nat, elems: bool)
    requires Enabled(s, Receive(g, p))
    ensures Everywhere(After(s, Receive(g, p)), x, elems) == Everywhere(s, x, elems)
  {
    hide Ids, InPeers, InHands, In;
    var q := s.peers[p].staged;
    var y := s.peers[p].(staged := q[1..]);
    WithPeerCount(s, p, y, x, elems);
    WithHandCount(WithPeer(s, p, y), g, Onward(p, q[0], [], []), x, elems);
    OnwardCount(p, q[0], [], [], x, elems);
    InNone(x, elems);
  }

  lemma DrawCount(s: State, g: nat, nonce: uint64, x: nat, elems: bool)
    requires Enabled(s, Draw(g, nonce))
    ensures Everywhere(After(s, Draw(g, nonce)), x, elems) == Everywhere(s, x, elems)
  {
    hide Ids, InPeers, InHands, In;
    var h := s.hands[g];
    var first, todo := [h.todo[0]], h.todo[1..];
    var below := nonce < SendNonce.REJECT_AFTER_MESSAGES;
    var kept, over := if below then h.kept + first else h.kept, if below then h.over else h.over + first;
    OnwardCount(h.peer, h.todo, h.kept, h.over, x, elems);
    OnwardCount(h.peer, todo, kept, over, x, elems);
    InConcat(first, todo, x, elems);
    assert first + todo == h.todo;
    InConcat(h.kept, first, x, elems);
    InConcat(h.over, first, x, elems);
    WithHandCount(s, g, Onward(h.peer, todo, kept, over), x, elems);
  }

  lemma SendCount(s: State, g: nat, x: nat, elems: bool)
    ensures Enabled(s, LookRunning(g)) ==> Everywhere(After(s, LookRunning(g)), x, elems) == Everywhere(s, x, elems)
    ensures Enabled(s, Push(g)) ==> Everywhere(After(s, Push(g)), x, elems) == Everywhere(s, x, elems)
    ensures Enabled(s, Transmitted(g)) ==> Everywhere(After(s, Transmitted(g)), x, elems) == Everywhere(s, x, elems)
  {
    hide Ids, InPeers, InHands, In, InQueue;
    if g < |s.hands| {
      InNone(x, elems);
      WithHandCount(s, g, Idle, x, elems);
      match s.hands[g] {
        case Sending(p, kept) =>
          WithHandCount(s, g, Pushing(p, kept), x, elems);
          FreedCount(WithHand(s, g, Idle), kept, x, elems);
        case Pushing(p, kept) =>
          if p < |s.peers| {
            PushedCount(s.peers[p].outbound, kept, x, elems);
            WithPeerCount(WithHand(s, g, Idle), p, s.peers[p].(outbound := s.peers[p].outbound + [kept]), x, elems);
          }
        case Transmitting(c) => FreedCount(WithHand(s, g, Idle), c, x, elems);
        case _ =>
      }
    }
  }

  lemma TakeCount(s: State, g: nat, p: nat, x: nat, elems: bool)
    requires Enabled(s, TakeOutbound(g, p))
    ensures Everywhere(After(s, TakeOutbound(g, p)), x, elems) == Everywhere(s, x, elems)
  {
    hide Ids, InPeers, InHands, In;
    var q := s.peers[p].outbound;
    var y := s.peers[p].(outbound := q[1..]);
    InNone(x, elems);
    WithPeerCount(s, p, y, x, elems);
    WithHandCount(WithPeer(s, p, y), g, Transmitting(q[0]), x, elems);
  }

  lemma FlushCount(s: State, p: nat, x: nat, elems: bool)
    requires Enabled(s, FlushOutbound(p))
    ensures Everywhere(After(s, FlushOutbound(p)), x, elems) == Everywhere(s, x, elems)
  {
    hide Ids, InPeers, InHands, In;
    var q := s.peers[p].outbound;
    var y := s.peers[p].(outbound := q[1..]);
    WithPeerCount(s, p, y, x, elems);
    FreedCount(WithPeer(s, p, y), q[0], x, elems);
  }

  lemma StepCount(s: State, st: Step, x: nat, elems: bool)
    requires Enabled(s, st)
    ensures Everywhere(After(s, st), x, elems) == Everywhere(s, x, elems) + Makes(s, After(s, st), x, elems)
  {
    hide Everywhere;
    match st {
      case ReadPacket(slot, p, elem, buffer) => ReadCount(s, slot, p, elem, buffer, x, elems);
      case Keepalive(g, p, elem, buffer) => KeepaliveCount(s, g, p, elem, buffer, x, elems);
      case Dispatch(g, p) => DispatchCount(s, g, p, x, elems);
      case StageKeepalive(g) => StageKeepaliveCount(s, g, x, elems);
      case StagePush(g) => StagePushCount(s, g, x, elems);
      case StageEvict(g) => StageEvictCount(s, g, x, elems);
      case Receive(g, p) => ReceiveCount(s, g, p, x, elems);
      case Draw(g, nonce) => DrawCount(s, g, nonce, x, elems);
      case LookRunning(g) => SendCount(s, g, x, elems);
      case Push(g) => SendCount(s, g, x, elems);
      case Transmitted(g) => SendCount(s, g, x, elems);
      case TakeOutbound(g, p) => TakeCount(s, g, p, x, elems);
      case FlushStaged(p) => DropCount(s, p, x, elems);
      case FlushOutbound(p) => FlushCount(s, p, x, elems);
      case SetRunning(p, running) => SetRunningCount(s, p, running, x, elems);
      case ReaderExit => ExitCount(s, x, elems);
    }
  }

  lemma SetRunningCount(s: State, p: nat, running: bool, x: nat, elems: bool)
    requires p < |s.peers|
    ensures Everywhere(After(s, SetRunning(p, running)), x, elems) == Everywhere(s, x, elems)
  {
    WithPeerCount(s, p, s.peers[p].(running := running), x, elems);
  }

  lemma ExitCount(s: State, x: nat, elems: bool)
    ensures Everywhere(After(s, ReaderExit), x, elems) == Everywhere(s, x, elems)
  {
    FreedCount(s.(slots := []), s.slots, x, elems);
  }

  // ----- runs

  /** The reader starts with a full set of slots, and nothing else exists. */
  function Start(batch: nat, peers: nat, goroutines: nat): State {
    State(multiset{}, multiset{}, batch, batch, seq(batch, (i: nat) => Handle(i, i)),
          seq(peers, _ => PeerQueues([], [], [], false)), seq(goroutines, _ => Idle))
  }

  ghost predicate IsRun(s: State, run: seq<Step>)
    decreases |run|
  {
    run != [] ==> Enabled(s, run[0]) && IsRun(After(s, run[0]), run[1..])
  }

  ghost function Final(s: State, run: seq<Step>): State
    requires IsRun(s, run)
    decreases |run|
  {
    if run == [] then s else Final(After(s, run[0]), run[1..])
  }

  lemma {:induction false} SlotsOnce(c: Container, lo: nat, x: nat, elems: bool)
    requires forall i :: 0 <= i < |c| ==> c[i] == Handle(lo + i, lo + i)
    ensures In(c, x, elems) == if lo <= x < lo + |c| then 1 else 0
  {
    if c != [] {
      SlotsOnce(c[1..], lo + 1, x, elems);
    }
  }

  lemma {:induction false} NothingQueued(ps: seq<PeerQueues>, x: nat, elems: bool)
    requires forall p :: 0 <= p < |ps| ==> ps[p] == PeerQueues([], [], [], false)
    ensures InPeers(ps, x, elems) == 0
  {
    if ps != [] {
      NothingQueued(ps[1..], x, elems);
    }
  }

  /** In every state of every run each element and each buffer is in exactly one
      place: in a pool once, or in a slot, or in one container of one queue, or in one
      goroutine's hand. */
  lemma {:induction false} Conservation(s: State, run: seq<Step>)
    requires Conserved(s) && IsRun(s, run)
    ensures Conserved(Final(s, run))
    decreases |run|
  {
    if run != [] {
      var s' := After(s, run[0]);
      forall x: nat, elems: bool
        ensures Everywhere(s', x, elems) == if x < Made(s', elems) then 1 else 0
      {
        StepCount(s, run[0], x, elems);
        MadeGrows(s, run[0], elems);
      }
      Conservation(s', run[1..]);
    }
  }

  lemma MadeGrows(s: State, st: Step, elems: bool)
    requires Enabled(s, st)
    ensures Made(s, elems) <= Made(After(s, st), elems)
  {
  }

  lemma {:induction false} NothingHeld(hs: seq<Hand>, x: nat, elems: bool)
    requires forall g :: 0 <= g < |hs| ==> hs[g] == Idle
    ensures InHands(hs, x, elems) == 0
  {
    if hs != [] {
      NothingHeld(hs[1..], x, elems);
    }
  }

  lemma StartOnce(batch: nat, peers: nat, goroutines: nat, x: nat, elems: bool)
    ensures var s := Start(batch, peers, goroutines);
      Everywhere(s, x, elems) == if x < Made(s, elems) then 1 else 0
  {
    var s := Start(batch, peers, goroutines);
    SlotsOnce(s.slots, 0, x, elems);
    NothingQueued(s.peers, x, elems);
    NothingHeld(s.hands, x, elems);
  }

  lemma StartConserved(batch: nat, peers: nat, goroutines: nat)
    ensures Conserved(Start(batch, peers, goroutines))
  {
    hide Everywhere, Start;
    forall x: nat, elems: bool
      ensures var s := Start(batch, peers, goroutines);
        Everywhere(s, x, elems) == if x < Made(s, elems) then 1 else 0
    {
      StartOnce(batch, peers, goroutines, x, elems);
    }
  }
}
