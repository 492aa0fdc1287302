/** Where an outbound element may go, over whole runs: what a sender does with what it
    holds, what comes back to the pools and why, and the order of the queues. */
module OwnershipRuns {
  import opened Bitwise
  import SendNonce
  import opened Ownership

  const LIMIT := SendNonce.REJECT_AFTER_MESSAGES

  // ----- states along a run

  /** The state before step i of a run. */
  ghost function StateAt(s: State, run: seq<Step>, i: nat): State
    requires IsRun(s, run) && i <= |run|
    decreases i
  {
    if i == 0 then s else StateAt(After(s, run[0]), run[1..], i - 1)
  }

  lemma {:induction false} StateNext(s: State, run: seq<Step>, i: nat)
    requires IsRun(s, run) && i < |run|
    ensures Enabled(StateAt(s, run, i), run[i]) && StateAt(s, run, i + 1) == After(StateAt(s, run, i), run[i])
    decreases i
  {
    hide Enabled, After;
    if i > 0 {
      StateNext(After(s, run[0]), run[1..], i - 1);
    }
  }

  predicate Has(c: Container, x: nat) {
    exists i :: 0 <= i < |c| && c[i].elem == x
  }

  lemma {:induction false} HasIds(c: Container, x: nat)
    ensures x in Ids(c, true) <==> Has(c, x)
  {
    if c != [] {
      HasIds(c[1..], x);
      assert forall i :: 0 <= i < |c[1..]| ==> c[1..][i] == c[i + 1];
      assert Has(c, x) <==> c[0].elem == x || Has(c[1..], x) by {
        if Has(c, x) {
          var i :| 0 <= i < |c| && c[i].elem == x;
          assert i > 0 ==> c[1..][i - 1].elem == x;
        }
      }
    }
  }

  lemma HasConcat(a: Container, b: Container, x: nat)
    ensures Has(a + b, x) <==> Has(a, x) || Has(b, x)
  {
    assert forall i :: 0 <= i < |a| ==> (a + b)[i] == a[i];
    assert forall i :: 0 <= i < |b| ==> (a + b)[|a| + i] == b[i];
    if Has(a + b, x) {
      var i :| 0 <= i < |a + b| && (a + b)[i].elem == x;
      assert i >= |a| ==> b[i - |a|].elem == x;
    }
  }

  /** Nobody appears or disappears. */
  lemma SameNumber(s: State, st: Step)
    requires Enabled(s, st)
    ensures |After(s, st).hands| == |s.hands| && |After(s, st).peers| == |s.peers|
  {
    hide Ids, Taken, NextAfter, Onward, AfterStaging;
  }

  /** A goroutine's hand after a step. */
  ghost function HandAfter(s: State, st: Step, g: nat): Hand
    requires Enabled(s, st) && g < |s.hands|
  {
    SameNumber(s, st);
    After(s, st).hands[g]
  }

  /** The step is goroutine g's own. */
  predicate Own(st: Step, g: nat) {
    match st
    case Dispatch(h, _) => h == g
    case Keepalive(h, _, _, _) => h == g
    case StageKeepalive(h) => h == g
    case StagePush(h) => h == g
    case StageEvict(h) => h == g
    case Receive(h, _) => h == g
    case Draw(h, _) => h == g
    case LookRunning(h) => h == g
    case Push(h) => h == g
    case TakeOutbound(h, _) => h == g
    case Transmitted(h) => h == g
    case _ => false
  }

  /** What a goroutine has in hand after a step of its own. */
  ghost function NewHand(s: State, st: Step): Hand
    requires Enabled(s, st)
  {
    match st
    case Dispatch(g, p) => if s.peers[p].running then Staging(p, s.peers[p].gathered, [], false) else Idle
    case Keepalive(g, p, elem, buffer) => Keeping(p, Handle(elem, buffer))
    case StagePush(g) =>
      var h := s.hands[g];
      if |s.peers[h.peer].staged| < QUEUE_STAGED_SIZE then AfterStaging(h.peer, h.rest) else h.(full := true)
    case StageEvict(g) => s.hands[g].(full := false)
    case Receive(g, p) => Onward(p, s.peers[p].staged[0], [], [])
    case Draw(g, nonce) =>
      var h := s.hands[g];
      var first, todo := [h.todo[0]], h.todo[1..];
      if nonce < LIMIT then Onward(h.peer, todo, h.kept + first, h.over)
      else Onward(h.peer, todo, h.kept, h.over + first)
    case LookRunning(g) =>
      var h := s.hands[g]; if s.peers[h.peer].running then Pushing(h.peer, h.kept) else Idle
    case TakeOutbound(g, p) => Transmitting(s.peers[p].outbound[0])
    case _ => Idle
  }

  /** A step changes no hand but its own goroutine's. */
  lemma HandExact(s: State, st: Step, g: nat)
    requires Enabled(s, st) && g < |s.hands|
    ensures HandAfter(s, st, g) == if Own(st, g) then NewHand(s, st) else s.hands[g]
  {
    hide Ids, Taken, NextAfter, Onward, AfterStaging;
  }

  ghost function PeerAfter(s: State, st: Step, p: nat): PeerQueues
    requires Enabled(s, st) && p < |s.peers|
  {
    SameNumber(s, st);
    After(s, st).peers[p]
  }

  /** The peer a step is about, if any. */
  function About(s: State, st: Step): int
    requires Enabled(s, st)
  {
    match st
    case ReadPacket(_, p, _, _) => p
    case Dispatch(_, p) => p
    case StageKeepalive(g) => s.hands[g].peer
    case StagePush(g) => s.hands[g].peer
    case StageEvict(g) => s.hands[g].peer
    case Receive(_, p) => p
    case Push(g) => s.hands[g].peer
    case TakeOutbound(_, p) => p
    case FlushStaged(p) => p
    case FlushOutbound(p) => p
    case SetRunning(p, _) => p
    case _ => -1
  }

  /** What that peer has after the step. */
  ghost function NewQueues(s: State, st: Step, y: PeerQueues): PeerQueues
    requires Enabled(s, st) && 0 <= About(s, st) < |s.peers| && y == s.peers[About(s, st)]
  {
    match st
    case ReadPacket(slot, _, _, _) => y.(gathered := y.gathered + [s.slots[slot]])
    case Dispatch(_, _) => y.(gathered := [])
    case StageKeepalive(g) => if |y.staged| < QUEUE_STAGED_SIZE then y.(staged := y.staged + [[s.hands[g].h]]) else y
    case StagePush(g) => if |y.staged| < QUEUE_STAGED_SIZE then y.(staged := y.staged + [s.hands[g].c]) else y
    case StageEvict(_) => if y.staged == [] then y else y.(staged := y.staged[1..])
    case Receive(_, _) => y.(staged := y.staged[1..])
    case FlushStaged(_) => y.(staged := y.staged[1..])
    case Push(g) => y.(outbound := y.outbound + [s.hands[g].kept])
    case TakeOutbound(_, _) => y.(outbound := y.outbound[1..])
    case FlushOutbound(_) => y.(outbound := y.outbound[1..])
    case SetRunning(_, running) => y.(running := running)
    case _ => y
  }

  /** A step changes no peer but the one it is about. */
  lemma PeerExact(s: State, st: Step, p: nat)
    requires Enabled(s, st) && p < |s.peers|
    ensures PeerAfter(s, st, p) == if About(s, st) == p then NewQueues(s, st, s.peers[p]) else s.peers[p]
  {
    hide Ids, Taken, NextAfter, Onward, AfterStaging;
  }

  lemma StepSets(s: State, st: Step, p: nat)
    requires Enabled(s, st) && p < |s.peers|
    ensures PeerAfter(s, st, p).running ==
      if st.SetRunning? && st.peer == p then st.running else s.peers[p].running
  {
    hide PeerAfter, After;
    PeerExact(s, st, p);
  }

  /** A peer runs or not as it was last told to. */
  lemma {:induction false} RunsAsTold(s: State, run: seq<Step>, i: nat, j: nat, p: nat)
    requires IsRun(s, run) && i < j <= |run| && run[i].SetRunning? && run[i].peer == p
    requires forall k :: i < k < j ==> !(run[k].SetRunning? && run[k].peer == p)
    ensures p < |StateAt(s, run, j).peers| && StateAt(s, run, j).peers[p].running == run[i].running
    decreases j
  {
    hide Enabled, After;
    StateNext(s, run, j - 1);
    if i < j - 1 {
      RunsAsTold(s, run, i, j - 1, p);
    } else {
      IsThere(StateAt(s, run, i), run[i]);
    }
    SameNumber(StateAt(s, run, j - 1), run[j - 1]);
    StepSets(StateAt(s, run, j - 1), run[j - 1], p);
  }

  lemma IsThere(s: State, st: Step)
    requires Enabled(s, st) && st.SetRunning?
    ensures st.peer < |s.peers|
  {
  }

  // ----- what comes back to the pools

  /** Element x is given back by this step: it was transmitted, flushed or evicted, it was a
      keepalive for which there was no room, its peer had stopped, or the reader has ended. */
  predicate Released(s: State, st: Step, x: nat)
    requires Enabled(s, st)
  {
    match st
    case Transmitted(g) => Has(s.hands[g].c, x)
    case FlushStaged(p) => Has(s.peers[p].staged[0], x)
    case FlushOutbound(p) => Has(s.peers[p].outbound[0], x)
    case StageEvict(g) => var q := s.peers[s.hands[g].peer].staged; q != [] && Has(q[0], x)
    case StageKeepalive(g) => |s.peers[s.hands[g].peer].staged| >= QUEUE_STAGED_SIZE && s.hands[g].h.elem == x
    case Dispatch(g, p) => !s.peers[p].running && Has(s.peers[p].gathered, x)
    case LookRunning(g) => !s.peers[s.hands[g].peer].running && Has(s.hands[g].kept, x)
    case ReaderExit => Has(s.slots, x)
    case _ => false
  }

  lemma FreedHas(s: State, c: Container, x: nat)
    ensures x in Freed(s, c).elemPool <==> x in s.elemPool || Has(c, x)
  {
    HasIds(c, x);
  }

  /** An element comes into the pool exactly so. */
  lemma ReleasedExactly(s: State, st: Step, x: nat)
    requires Enabled(s, st) && x !in s.elemPool
    ensures x in After(s, st).elemPool <==> Released(s, st, x)
  {
    hide Ids, Freed, Has;
    match st {
      case Transmitted(g) => FreedHas(WithHand(s, g, Idle), s.hands[g].c, x);
      case FlushStaged(p) => DropHas(s, p, x);
      case FlushOutbound(p) =>
        FreedHas(WithPeer(s, p, s.peers[p].(outbound := s.peers[p].outbound[1..])), s.peers[p].outbound[0], x);
      case StageEvict(g) =>
        var p := s.hands[g].peer;
        if s.peers[p].staged != [] {
          DropHas(WithHand(s, g, s.hands[g].(full := false)), p, x);
        }
      case StageKeepalive(g) =>
        FreedHas(WithHand(s, g, Idle), [s.hands[g].h], x);
        HasOne(s.hands[g].h, x);
      case Dispatch(g, p) => FreedHas(WithPeer(s, p, s.peers[p].(gathered := [])), s.peers[p].gathered, x);
      case LookRunning(g) => FreedHas(WithHand(s, g, Idle), s.hands[g].kept, x);
      case ReaderExit => FreedHas(s.(slots := []), s.slots, x);
      case _ =>
    }
  }

  lemma DropHas(s: State, p: nat, x: nat)
    requires p < |s.peers| && s.peers[p].staged != []
    ensures x in DropStaged(s, p).elemPool <==> x in s.elemPool || Has(s.peers[p].staged[0], x)
  {
    FreedHas(WithPeer(s, p, s.peers[p].(staged := s.peers[p].staged[1..])), s.peers[p].staged[0], x);
  }

  lemma HasOne(h: Handle, x: nat)
    ensures Has([h], x) <==> h.elem == x
  {
    assert [h][0] == h;
  }

  /** Over a run: what was in use and is in the pool was released in between. */
  lemma {:induction false} OnlyReleased(s: State, run: seq<Step>, i: nat, j: nat, x: nat) returns (k: nat)
    requires IsRun(s, run) && i <= j <= |run|
    requires x !in StateAt(s, run, i).elemPool && x in StateAt(s, run, j).elemPool
    ensures i <= k < j && Enabled(StateAt(s, run, k), run[k]) && Released(StateAt(s, run, k), run[k], x)
    decreases j
  {
    hide Enabled, After, Released;
    StateNext(s, run, j - 1);
    if x in StateAt(s, run, j - 1).elemPool {
      k := OnlyReleased(s, run, i, j - 1, x);
    } else {
      k := j - 1;
      ReleasedExactly(StateAt(s, run, k), run[k], x);
    }
  }

  // ----- what a sender does with what it holds

  /** The sender holds x for this peer, with a nonce below the limit. */
  predicate Carries(h: Hand, p: nat, x: nat) {
    match h
    case Assigning(q, _, kept, _) => q == p && Has(kept, x)
    case Staging(q, _, rest, _) => q == p && Has(rest, x)
    case Sending(q, kept) => q == p && Has(kept, x)
    case Pushing(q, kept) => q == p && Has(kept, x)
    case _ => false
  }

  /** The sender has set x aside, for its nonce is not below the limit, or is to stage it anyway. */
  predicate SetsAside(h: Hand, p: nat, x: nat) {
    match h
    case Assigning(q, _, _, over) => q == p && Has(over, x)
    case Staging(q, c, _, _) => q == p && Has(c, x)
    case _ => false
  }

  /** Goroutine g has put a container with x at the end of its peer's outbound queue. */
  predicate GoesOut(s: State, st: Step, g: nat, p: nat, x: nat)
    requires Enabled(s, st)
  {
    && st == Push(g) && p < |s.peers|
    && var q := After(s, st).peers[p].outbound; q != [] && Has(q[|q| - 1], x)
  }

  /** It has found the peer stopped, and x is back in the pool. */
  predicate GivenUp(s: State, st: Step, g: nat, p: nat, x: nat)
    requires Enabled(s, st)
  {
    st == LookRunning(g) && p < |s.peers| && !s.peers[p].running && x in After(s, st).elemPool
  }

  lemma PushQueues(s: State, g: nat, x: nat)
    requires Enabled(s, Push(g)) && Has(s.hands[g].kept, x)
    ensures GoesOut(s, Push(g), g, s.hands[g].peer, x)
  {
    var q := After(s, Push(g)).peers[s.hands[g].peer].outbound;
    assert q[|q| - 1] == s.hands[g].kept;
  }

  lemma LookFrees(s: State, g: nat, x: nat)
    requires Enabled(s, LookRunning(g)) && Has(s.hands[g].kept, x) && !s.peers[s.hands[g].peer].running
    ensures GivenUp(s, LookRunning(g), g, s.hands[g].peer, x)
  {
    FreedHas(WithHand(s, g, Idle), s.hands[g].kept, x);
  }

  lemma StepCarried(s: State, st: Step, g: nat, p: nat, x: nat)
    requires Enabled(s, st) && g < |s.hands| && Carries(s.hands[g], p, x)
    ensures Carries(HandAfter(s, st, g), p, x) || GoesOut(s, st, g, p, x) || GivenUp(s, st, g, p, x)
  {
    hide HandAfter, After, GoesOut, GivenUp, Has;
    HandExact(s, st, g);
    if st == Push(g) {
      PushQueues(s, g, x);
    } else if st == LookRunning(g) {
      if !s.peers[p].running {
        LookFrees(s, g, x);
      }
    } else if st.Draw? && st.g == g {
      HasConcat(s.hands[g].kept, [s.hands[g].todo[0]], x);
      HasNone(x);
    } else {
      HasNone(x);
    }
  }

  lemma HasNone(x: nat)
    ensures !Has([], x)
  {
  }

  /** What a sender holds with a nonce below the limit leaves its hand only into its peer's
      outbound queue, or into the pool if the peer was not running at its look. */
  lemma {:induction false} LeavesHand(s: State, run: seq<Step>, i: nat, j: nat, g: nat, p: nat, x: nat) returns (k: nat)
    requires IsRun(s, run) && i <= j <= |run| && g < |s.hands|
    requires g < |StateAt(s, run, i).hands| && g < |StateAt(s, run, j).hands|
    requires Carries(StateAt(s, run, i).hands[g], p, x) && !Carries(StateAt(s, run, j).hands[g], p, x)
    ensures i <= k < j && Enabled(StateAt(s, run, k), run[k])
    ensures var t := StateAt(s, run, k); GoesOut(t, run[k], g, p, x) || GivenUp(t, run[k], g, p, x)
    decreases j - i
  {
    hide Enabled, After, GoesOut, GivenUp, Carries;
    StateNext(s, run, i);
    SameNumber(StateAt(s, run, i), run[i]);
    StepCarried(StateAt(s, run, i), run[i], g, p, x);
    var t := StateAt(s, run, i);
    if GoesOut(t, run[i], g, p, x) || GivenUp(t, run[i], g, p, x) {
      k := i;
    } else {
      k := LeavesHand(s, run, i + 1, j, g, p, x);
    }
  }

  /** A sender is about to queue a container only after it has found the peer running. */
  lemma StepPushing(s: State, st: Step, g: nat)
    requires Enabled(s, st) && g < |s.hands| && HandAfter(s, st, g).Pushing? && HandAfter(s, st, g) != s.hands[g]
    ensures st == LookRunning(g) && s.peers[s.hands[g].peer].running
    ensures HandAfter(s, st, g) == Pushing(s.hands[g].peer, s.hands[g].kept)
  {
    hide HandAfter, After;
    HandExact(s, st, g);
  }

  lemma LooksWith(s: State, g: nat)
    requires Enabled(s, LookRunning(g))
    ensures g < |s.hands| && s.hands[g].Sending? && s.hands[g].peer < |s.peers|
  {
  }

  /** What a sender queues at step j, it had in hand when it looked and found the peer running. */
  lemma {:induction false} QueuedIfRunning(s: State, run: seq<Step>, j: nat, g: nat) returns (k: nat)
    requires IsRun(s, run) && j <= |run| && g < |s.hands| && !s.hands[g].Pushing?
    requires g < |StateAt(s, run, j).hands| && StateAt(s, run, j).hands[g].Pushing?
    ensures k < j && run[k] == LookRunning(g) && g < |StateAt(s, run, k).hands|
    ensures var t, h := StateAt(s, run, k), StateAt(s, run, j).hands[g];
      t.hands[g] == Sending(h.peer, h.kept) && h.peer < |t.peers| && t.peers[h.peer].running
    decreases j
  {
    hide Enabled, After;
    StateNext(s, run, j - 1);
    var t := StateAt(s, run, j - 1);
    SameNumber(t, run[j - 1]);
    if t.hands[g] == StateAt(s, run, j).hands[g] {
      k := QueuedIfRunning(s, run, j - 1, g);
    } else {
      k := j - 1;
      StepPushing(t, run[k], g);
      LooksWith(t, g);
    }
  }

  /** Goroutine g has put a container with x at the end of its peer's staged queue. */
  predicate GoesBack(s: State, st: Step, g: nat, p: nat, x: nat)
    requires Enabled(s, st)
  {
    && st == StagePush(g) && p < |s.peers|
    && var q := After(s, st).peers[p].staged; q != [] && Has(q[|q| - 1], x)
  }

  lemma PushStages(s: State, g: nat, x: nat)
    requires Enabled(s, StagePush(g)) && Has(s.hands[g].c, x)
    requires |s.peers[s.hands[g].peer].staged| < QUEUE_STAGED_SIZE
    ensures GoesBack(s, StagePush(g), g, s.hands[g].peer, x)
  {
    var q := After(s, StagePush(g)).peers[s.hands[g].peer].staged;
    assert q[|q| - 1] == s.hands[g].c;
  }

  lemma StepSetAside(s: State, st: Step, g: nat, p: nat, x: nat)
    requires Enabled(s, st) && g < |s.hands| && SetsAside(s.hands[g], p, x)
    ensures SetsAside(HandAfter(s, st, g), p, x) || GoesBack(s, st, g, p, x)
  {
    hide HandAfter, After, GoesBack, Has;
    HandExact(s, st, g);
    HasNone(x);
    if st == StagePush(g) {
      if |s.peers[p].staged| < QUEUE_STAGED_SIZE {
        PushStages(s, g, x);
      }
    } else if st.Draw? && st.g == g {
      HasConcat(s.hands[g].over, [s.hands[g].todo[0]], x);
    }
  }

  /** What is set aside leaves the hand only into the peer's staged queue. */
  lemma {:induction false} GoesBackToStaged(s: State, run: seq<Step>, i: nat, j: nat, g: nat, p: nat, x: nat)
    returns (k: nat)
    requires IsRun(s, run) && i <= j <= |run|
    requires g < |StateAt(s, run, i).hands| && g < |StateAt(s, run, j).hands|
    requires SetsAside(StateAt(s, run, i).hands[g], p, x) && !SetsAside(StateAt(s, run, j).hands[g], p, x)
    ensures i <= k < j && Enabled(StateAt(s, run, k), run[k]) && GoesBack(StateAt(s, run, k), run[k], g, p, x)
    decreases j - i
  {
    hide Enabled, After, GoesBack, SetsAside;
    StateNext(s, run, i);
    SameNumber(StateAt(s, run, i), run[i]);
    StepSetAside(StateAt(s, run, i), run[i], g, p, x);
    if GoesBack(StateAt(s, run, i), run[i], g, p, x) {
      k := i;
    } else {
      k := GoesBackToStaged(s, run, i + 1, j, g, p, x);
    }
  }

  // ----- the order of the queues

  ghost function Queue(s: State, p: nat, out: bool): seq<Container>
    requires p < |s.peers|
  {
    if out then s.peers[p].outbound else s.peers[p].staged
  }

  /** What a step puts into a queue. */
  ghost function Enters(s: State, st: Step, p: nat, out: bool): seq<Container>
    requires Enabled(s, st) && p < |s.peers|
  {
    match st
    case Push(g) => if out && s.hands[g].peer == p then [s.hands[g].kept] else []
    case StagePush(g) =>
      if !out && s.hands[g].peer == p && |s.peers[p].staged| < QUEUE_STAGED_SIZE then [s.hands[g].c] else []
    case StageKeepalive(g) =>
      if !out && s.hands[g].peer == p && |s.peers[p].staged| < QUEUE_STAGED_SIZE then [[s.hands[g].h]] else []
    case _ => []
  }

  /** The step takes the oldest container out of a queue. */
  ghost predicate TakesOne(s: State, st: Step, p: nat, out: bool)
    requires Enabled(s, st) && p < |s.peers|
  {
    && Queue(s, p, out) != []
    && match st
       case TakeOutbound(_, q) => out && q == p
       case FlushOutbound(q) => out && q == p
       case Receive(_, q) => !out && q == p
       case FlushStaged(q) => !out && q == p
       case StageEvict(g) => !out && s.hands[g].peer == p
       case _ => false
  }

  ghost function Leaves(s: State, st: Step, p: nat, out: bool): seq<Container>
    requires Enabled(s, st) && p < |s.peers|
  {
    if TakesOne(s, st, p, out) then [Queue(s, p, out)[0]] else []
  }

  /** What comes out of a queue over a run, and what goes in, in order. */
  ghost function Outgoing(s: State, run: seq<Step>, p: nat, out: bool): seq<Container>
    requires IsRun(s, run) && p < |s.peers|
    decreases |run|
  {
    if run == [] then [] else
    var s' := After(s, run[0]);
    SameNumber(s, run[0]);
    Leaves(s, run[0], p, out) + Outgoing(s', run[1..], p, out)
  }

  ghost function Incoming(s: State, run: seq<Step>, p: nat, out: bool): seq<Container>
    requires IsRun(s, run) && p < |s.peers|
    decreases |run|
  {
    if run == [] then [] else
    var s' := After(s, run[0]);
    SameNumber(s, run[0]);
    Enters(s, run[0], p, out) + Incoming(s', run[1..], p, out)
  }

  lemma StepFifo(s: State, st: Step, p: nat, out: bool)
    requires Enabled(s, st) && p < |s.peers|
    ensures p < |After(s, st).peers|
    ensures Queue(s, p, out) + Enters(s, st, p, out) == Leaves(s, st, p, out) + Queue(After(s, st), p, out)
  {
    hide After;
    SameNumber(s, st);
    PeerExact(s, st, p);
    assert After(s, st).peers[p] == PeerAfter(s, st, p);
  }

  /** A container comes into a peer's outbound queue only from a sender that has it in hand. */
  lemma StepOutbound(s: State, st: Step, p: nat)
    requires Enabled(s, st) && p < |s.peers|
    ensures p < |After(s, st).peers|
    ensures |After(s, st).peers[p].outbound| > |s.peers[p].outbound| ==>
      && st.Push? && s.hands[st.g].peer == p
      && After(s, st).peers[p].outbound == s.peers[p].outbound + [s.hands[st.g].kept]
  {
    StepFifo(s, st, p, true);
    hide After;
    assert Queue(After(s, st), p, true) == After(s, st).peers[p].outbound;
    if |After(s, st).peers[p].outbound| > |s.peers[p].outbound| {
      assert Leaves(s, st, p, true) == [];
      assert [] + Queue(After(s, st), p, true) == Queue(After(s, st), p, true);
    }
  }

  /** Each queue is first in, first out: what was in it and what went in is, in this order,
      what came out and what is in it. */
  lemma {:induction false} Fifo(s: State, run: seq<Step>, p: nat, out: bool)
    requires IsRun(s, run) && p < |s.peers|
    ensures p < |Final(s, run).peers|
    ensures Queue(s, p, out) + Incoming(s, run, p, out) == Outgoing(s, run, p, out) + Queue(Final(s, run), p, out)
    decreases |run|
  {
    hide Enabled, After, Queue, Enters, Leaves;
    if run == [] {
      assert Queue(s, p, out) + [] == [] + Queue(s, p, out);
    } else {
      var s' := After(s, run[0]);
      StepFifo(s, run[0], p, out);
      SameNumber(s, run[0]);
      Fifo(s', run[1..], p, out);
      var first := Leaves(s, run[0], p, out);
      calc {
        Queue(s, p, out) + Incoming(s, run, p, out);
        Queue(s, p, out) + Enters(s, run[0], p, out) + Incoming(s', run[1..], p, out);
        first + Queue(s', p, out) + Incoming(s', run[1..], p, out);
        first + (Queue(s', p, out) + Incoming(s', run[1..], p, out));
        first + (Outgoing(s', run[1..], p, out) + Queue(Final(s, run), p, out));
        first + Outgoing(s', run[1..], p, out) + Queue(Final(s, run), p, out);
        Outgoing(s, run, p, out) + Queue(Final(s, run), p, out);
      }
    }
  }

  /** No queue grows beyond its size. */
  ghost predicate Bounded(s: State) {
    forall p :: 0 <= p < |s.peers| ==>
      |s.peers[p].staged| <= QUEUE_STAGED_SIZE && |s.peers[p].outbound| <= QUEUE_OUTBOUND_SIZE
  }

  lemma StepBounded(s: State, st: Step, p: nat)
    requires Enabled(s, st) && Bounded(s) && p < |s.peers|
    ensures p < |After(s, st).peers|
    ensures |After(s, st).peers[p].staged| <= QUEUE_STAGED_SIZE
    ensures |After(s, st).peers[p].outbound| <= QUEUE_OUTBOUND_SIZE
  {
    StepFifo(s, st, p, true);
    StepFifo(s, st, p, false);
    hide After;
    var t := After(s, st);
    assert Queue(t, p, true) == t.peers[p].outbound && Queue(t, p, false) == t.peers[p].staged;
  }

  lemma {:induction false} QueuesBounded(s: State, run: seq<Step>)
    requires Bounded(s) && IsRun(s, run)
    ensures Bounded(Final(s, run))
    decreases |run|
  {
    hide Enabled, After;
    if run != [] {
      SameNumber(s, run[0]);
      forall p | 0 <= p < |s.peers|
        ensures |After(s, run[0]).peers[p].staged| <= QUEUE_STAGED_SIZE
        ensures |After(s, run[0]).peers[p].outbound| <= QUEUE_OUTBOUND_SIZE
      {
        StepBounded(s, run[0], p);
      }
      QueuesBounded(After(s, run[0]), run[1..]);
    }
  }

  // ----- nonces

  type Nonces = map<nat, uint64>

  /** The last nonce each element was given. */
  ghost function Drawn(d: Nonces, s: State, st: Step): Nonces
    requires Enabled(s, st)
  {
    if st.Draw? then d[s.hands[st.g].todo[0].elem := st.nonce] else d
  }

  ghost function DrawnOver(d: Nonces, s: State, run: seq<Step>): Nonces
    requires IsRun(s, run)
    decreases |run|
  {
    if run == [] then d else DrawnOver(Drawn(d, s, run[0]), After(s, run[0]), run[1..])
  }

  ghost predicate Below(c: Container, d: Nonces) {
    forall i :: 0 <= i < |c| ==> c[i].elem in d && d[c[i].elem] < LIMIT
  }

  ghost predicate Beyond(c: Container, d: Nonces) {
    forall i :: 0 <= i < |c| ==> c[i].elem in d && d[c[i].elem] >= LIMIT
  }

  ghost predicate HandOk(h: Hand, d: Nonces) {
    match h
    case Assigning(_, _, kept, over) => Below(kept, d) && Beyond(over, d)
    case Staging(_, _, rest, _) => Below(rest, d)
    case Sending(_, kept) => Below(kept, d)
    case Pushing(_, kept) => Below(kept, d)
    case Transmitting(c) => Below(c, d)
    case _ => true
  }

  ghost predicate QueueOk(q: seq<Container>, d: Nonces) {
    forall i :: 0 <= i < |q| ==> Below(q[i], d)
  }

  /** Whatever is queued to go out, or on its way there, has a nonce below the limit, and
      what is set aside has not. */
  ghost predicate NoncesOk(s: State, d: Nonces) {
    && (forall p :: 0 <= p < |s.peers| ==> QueueOk(s.peers[p].outbound, d))
    && (forall g :: 0 <= g < |s.hands| ==> HandOk(s.hands[g], d))
  }

  // what is in two places is there twice

  lemma HasCount(c: Container, x: nat)
    requires Has(c, x)
    ensures Ownership.In(c, x, true) >= 1
  {
    HasIds(c, x);
  }

  lemma {:induction false} InQueueAt(q: seq<Container>, i: nat, x: nat)
    requires i < |q|
    ensures InQueue(q, x, true) >= Ownership.In(q[i], x, true)
  {
    hide Ownership.In;
    if i > 0 {
      InQueueAt(q[1..], i - 1, x);
    }
  }

  lemma {:induction false} InPeersAt(ps: seq<PeerQueues>, p: nat, x: nat)
    requires p < |ps|
    ensures InPeers(ps, x, true) >= InPeer(ps[p], x, true)
  {
    hide InPeer;
    if p > 0 {
      InPeersAt(ps[1..], p - 1, x);
    }
  }

  lemma {:induction false} InHandsAt(hs: seq<Hand>, g: nat, x: nat)
    requires g < |hs|
    ensures InHands(hs, x, true) >= Ownership.In(Held(hs[g]), x, true)
  {
    hide Ownership.In, Held;
    if g > 0 {
      InHandsAt(hs[1..], g - 1, x);
    }
  }

  lemma {:induction false} InTwoHands(hs: seq<Hand>, g: nat, h: nat, x: nat)
    requires g < |hs| && h < |hs| && g != h
    ensures InHands(hs, x, true) >= Ownership.In(Held(hs[g]), x, true) + Ownership.In(Held(hs[h]), x, true)
  {
    hide Ownership.In, Held;
    if g == 0 {
      InHandsAt(hs[1..], h - 1, x);
    } else if h == 0 {
      InHandsAt(hs[1..], g - 1, x);
    } else {
      InTwoHands(hs[1..], g - 1, h - 1, x);
    }
  }

  /** The element a sender draws a nonce for is in no queue and in no other hand. */
  lemma OnlyThere(s: State, g: nat, x: nat)
    requires Conserved(s) && g < |s.hands| && Has(Held(s.hands[g]), x)
    ensures forall p, i :: 0 <= p < |s.peers| && 0 <= i < |s.peers[p].outbound| ==> !Has(s.peers[p].outbound[i], x)
    ensures forall h :: 0 <= h < |s.hands| && h != g ==> !Has(Held(s.hands[h]), x)
    ensures Ownership.In(Held(s.hands[g]), x, true) == 1
  {
    hide Ownership.In, InPeers, InQueue, InHands, Held, Has;
    HasCount(Held(s.hands[g]), x);
    InHandsAt(s.hands, g, x);
    assert Everywhere(s, x, true) <= 1;
    forall p, i | 0 <= p < |s.peers| && 0 <= i < |s.peers[p].outbound| ensures !Has(s.peers[p].outbound[i], x) {
      if Has(s.peers[p].outbound[i], x) {
        HasCount(s.peers[p].outbound[i], x);
        InQueueAt(s.peers[p].outbound, i, x);
        InPeersAt(s.peers, p, x);
        assert false;
      }
    }
    forall h | 0 <= h < |s.hands| && h != g ensures !Has(Held(s.hands[h]), x) {
      if Has(Held(s.hands[h]), x) {
        HasCount(Held(s.hands[h]), x);
        InTwoHands(s.hands, g, h, x);
        assert false;
      }
    }
  }

  lemma BelowElsewhere(c: Container, d: Nonces, x: nat, nonce: uint64)
    requires !Has(c, x)
    ensures Below(c, d[x := nonce]) <==> Below(c, d)
    ensures Beyond(c, d[x := nonce]) <==> Beyond(c, d)
  {
    assert forall i :: 0 <= i < |c| ==> c[i].elem != x;
  }

  lemma HandElsewhere(h: Hand, d: Nonces, x: nat, nonce: uint64)
    requires HandOk(h, d) && !Has(Held(h), x)
    ensures HandOk(h, d[x := nonce])
  {
    hide Has, Below, Beyond;
    match h {
      case Assigning(_, todo, kept, over) =>
        HasConcat(todo + kept, over, x);
        HasConcat(todo, kept, x);
        BelowElsewhere(kept, d, x, nonce);
        BelowElsewhere(over, d, x, nonce);
      case Staging(_, c, rest, _) =>
        HasConcat(c, rest, x);
        BelowElsewhere(rest, d, x, nonce);
      case Sending(_, kept) => BelowElsewhere(kept, d, x, nonce);
      case Pushing(_, kept) => BelowElsewhere(kept, d, x, nonce);
      case Transmitting(c) => BelowElsewhere(c, d, x, nonce);
      case _ =>
    }
  }

  /** The sender's own hand: the element drawn for is in it once, so it is neither kept nor set aside yet. */
  lemma OwnHand(h: Hand, d: Nonces, nonce: uint64)
    requires h.Assigning? && h.todo != [] && HandOk(h, d)
    requires Ownership.In(Held(h), h.todo[0].elem, true) == 1
    ensures var first, d' := [h.todo[0]], d[h.todo[0].elem := nonce];
      && Below(h.kept, d') && Beyond(h.over, d')
      && (if nonce < LIMIT then Below(h.kept + first, d') else Beyond(h.over + first, d'))
  {
    hide Ids;
    var x := h.todo[0].elem;
    InConcat(h.todo + h.kept, h.over, x, true);
    InConcat(h.todo, h.kept, x, true);
    HasCount(h.todo, x);
    if Has(h.kept, x) {
      HasCount(h.kept, x);
      assert false;
    }
    if Has(h.over, x) {
      HasCount(h.over, x);
      assert false;
    }
    BelowElsewhere(h.kept, d, x, nonce);
    BelowElsewhere(h.over, d, x, nonce);
  }

  lemma OnwardOk(p: nat, todo: Container, kept: Container, over: Container, d: Nonces)
    requires Below(kept, d) && Beyond(over, d)
    ensures HandOk(Onward(p, todo, kept, over), d)
  {
  }

  lemma DrawOk(s: State, g: nat, nonce: uint64, d: Nonces)
    requires Conserved(s) && NoncesOk(s, d) && Enabled(s, Draw(g, nonce))
    ensures NoncesOk(After(s, Draw(g, nonce)), Drawn(d, s, Draw(g, nonce)))
  {
    hide Has, Below, Beyond, Everywhere;
    var h := s.hands[g];
    var x, first, todo := h.todo[0].elem, [h.todo[0]], h.todo[1..];
    var d' := d[x := nonce];
    assert Has(Held(h), x) by {
      HasFirst(h);
    }
    OnlyThere(s, g, x);
    OwnHand(h, d, nonce);
    if nonce < LIMIT {
      OnwardOk(h.peer, todo, h.kept + first, h.over, d');
    } else {
      OnwardOk(h.peer, todo, h.kept, h.over + first, d');
    }
    forall p, i | 0 <= p < |s.peers| && 0 <= i < |s.peers[p].outbound| ensures Below(s.peers[p].outbound[i], d') {
      assert QueueOk(s.peers[p].outbound, d);
      BelowElsewhere(s.peers[p].outbound[i], d, x, nonce);
    }
    forall k | 0 <= k < |s.hands| && k != g ensures HandOk(s.hands[k], d') {
      HandElsewhere(s.hands[k], d, x, nonce);
    }
  }

  lemma HasFirst(h: Hand)
    requires h.Assigning? && h.todo != []
    ensures Has(Held(h), h.todo[0].elem)
  {
    assert Held(h)[0] == h.todo[0];
  }

  /** One hand changes at most, and only as follows. */
  lemma StepHands(s: State, st: Step, d: Nonces, g: nat)
    requires NoncesOk(s, d) && Enabled(s, st) && !st.Draw? && g < |s.hands|
    ensures HandOk(HandAfter(s, st, g), d)
  {
    hide HandAfter, After, Below, Beyond;
    HandExact(s, st, g);
    EmptyOk(d);
    assert HandOk(s.hands[g], d);
    if st.TakeOutbound? && st.g == g {
      assert QueueOk(s.peers[st.peer].outbound, d);
    }
  }

  lemma QueueShifts(q: seq<Container>, e: seq<Container>, l: seq<Container>, q': seq<Container>, d: Nonces)
    requires q + e == l + q' && QueueOk(q, d) && QueueOk(e, d)
    ensures QueueOk(q', d)
  {
    hide Below;
    forall i | 0 <= i < |q'| ensures Below(q'[i], d) {
      var k := |l| + i;
      assert q'[i] == (l + q')[k] == (q + e)[k];
      assert (q + e)[k] == if k < |q| then q[k] else e[k - |q|];
    }
  }

  lemma EntersOk(s: State, st: Step, d: Nonces, p: nat)
    requires NoncesOk(s, d) && Enabled(s, st) && p < |s.peers|
    ensures QueueOk(Enters(s, st, p, true), d)
  {
    hide Below, Beyond;
    if st.Push? {
      assert HandOk(s.hands[st.g], d);
    }
  }

  lemma StepQueue(s: State, st: Step, d: Nonces, p: nat)
    requires NoncesOk(s, d) && Enabled(s, st) && p < |s.peers|
    ensures p < |After(s, st).peers| && QueueOk(After(s, st).peers[p].outbound, d)
  {
    hide Enabled, After, Enters, Leaves, HandOk, QueueOk;
    StepFifo(s, st, p, true);
    EntersOk(s, st, d, p);
    QueueShifts(Queue(s, p, true), Enters(s, st, p, true), Leaves(s, st, p, true), Queue(After(s, st), p, true), d);
  }

  lemma StepNonces(s: State, st: Step, d: Nonces)
    requires Conserved(s) && NoncesOk(s, d) && Enabled(s, st)
    ensures NoncesOk(After(s, st), Drawn(d, s, st))
  {
    hide Conserved, NoncesOk, Enabled, After;
    if st.Draw? {
      DrawOk(s, st.g, st.nonce, d);
    } else {
      OthersOk(s, st, d);
    }
  }

  lemma OthersOk(s: State, st: Step, d: Nonces)
    requires NoncesOk(s, d) && Enabled(s, st) && !st.Draw?
    ensures NoncesOk(After(s, st), d)
  {
    hide HandOk, QueueOk, Enabled, After;
    SameNumber(s, st);
    forall p | 0 <= p < |s.peers| ensures QueueOk(After(s, st).peers[p].outbound, d) {
      StepQueue(s, st, d, p);
    }
    forall g | 0 <= g < |s.hands| ensures HandOk(After(s, st).hands[g], d) {
      StepHands(s, st, d, g);
    }
  }

  lemma EmptyOk(d: Nonces)
    ensures Below([], d) && Beyond([], d)
  {
  }

  /** In every state of every run: what is queued to go out was last given a nonce below the
      limit, and so was what a sender is about to queue. */
  lemma {:induction false} NoncesKept(s: State, run: seq<Step>, d: Nonces)
    requires Conserved(s) && NoncesOk(s, d) && IsRun(s, run)
    ensures NoncesOk(Final(s, run), DrawnOver(d, s, run))
    decreases |run|
  {
    hide Conserved, NoncesOk, Drawn, Enabled, After;
    if run != [] {
      StepNonces(s, run[0], d);
      assert IsRun(After(s, run[0]), []);
      Conservation(s, run[..1]);
      assert run[..1][1..] == [] && Final(s, run[..1]) == After(s, run[0]);
      NoncesKept(After(s, run[0]), run[1..], Drawn(d, s, run[0]));
    }
  }

  lemma StartNonces(batch: nat, peers: nat, goroutines: nat)
    ensures NoncesOk(Start(batch, peers, goroutines), map[])
  {
  }

  /** From the start. */
  lemma NoncesFromStart(batch: nat, peers: nat, goroutines: nat, run: seq<Step>)
    requires IsRun(Start(batch, peers, goroutines), run)
    ensures var s := Start(batch, peers, goroutines); NoncesOk(Final(s, run), DrawnOver(map[], s, run))
  {
    hide Conserved, NoncesOk, Start;
    StartConserved(batch, peers, goroutines);
    StartNonces(batch, peers, goroutines);
    NoncesKept(Start(batch, peers, goroutines), run, map[]);
  }
}
