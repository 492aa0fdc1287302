/** Nonces for a keypair's packets: any number of senders draw from one atomic
    counter, and each puts it back to the limit when it has drawn beyond. */
module SendNonce {
  import opened Bitwise

  const REJECT_AFTER_MESSAGES: uint64 := 0xffff_ffff_ffff_ffff - 0x2000
  const WRAP64 := 0x1_0000_0000_0000_0000
  /** The room between the limit and the wrap-around: 2^13. */
  const SLACK := 0x2000

  /** A sender is about to draw, or has drawn beyond the limit and not yet put the counter back. */
  datatype Sender = Ready | Over

  /** The counter, the senders, and the nonces given to packets so far, in order. */
  datatype State = State(counter: uint64, senders: seq<Sender>, issued: seq<uint64>)

  datatype Action = Draw(t: nat) | PutBack(t: nat) | Expire

  predicate Enabled(s: State, a: Action) {
    match a
    case Draw(t) => t < |s.senders| && s.senders[t] == Ready
    case PutBack(t) => t < |s.senders| && s.senders[t] == Over
    case Expire => true
  }

  function Step(s: State, a: Action): State
    requires Enabled(s, a)
  {
    match a
    case Draw(t) =>
      var nonce := s.counter;
      var s' := s.(counter := (s.counter + 1) % WRAP64);
      if nonce >= REJECT_AFTER_MESSAGES then s'.(senders := s.senders[t := Over]) else s'.(issued := s.issued + [nonce])
    case PutBack(t) => s.(counter := REJECT_AFTER_MESSAGES, senders := s.senders[t := Ready])
    case Expire => s.(counter := REJECT_AFTER_MESSAGES)
  }

  /** A run: every action is enabled when it happens. */
  ghost predicate IsRun(s: State, run: seq<Action>)
    decreases |run|
  {
    run != [] ==> Enabled(s, run[0]) && IsRun(Step(s, run[0]), run[1..])
  }

  ghost function Final(s: State, run: seq<Action>): State
    requires IsRun(s, run)
    decreases |run|
  {
    if run == [] then s else Final(Step(s, run[0]), run[1..])
  }

  function Start(n: nat): State {
    State(0, seq(n, _ => Ready), [])
  }

  function CountOver(senders: seq<Sender>): nat {
    if senders == [] then 0 else CountOver(senders[1..]) + (if senders[0] == Over then 1 else 0)
  }

  lemma {:induction false} CountUpdate(senders: seq<Sender>, t: nat, x: Sender)
    requires t < |senders| && senders[t] != x
    ensures CountOver(senders[t := x]) == CountOver(senders) + if x == Over then 1 else -1
    ensures CountOver(senders) <= |senders|
  {
    CountBound(senders);
    if t == 0 {
      assert senders[t := x][1..] == senders[1..];
    } else {
      assert senders[t := x][1..] == senders[1..][t - 1 := x];
      CountUpdate(senders[1..], t - 1, x);
    }
  }

  lemma {:induction false} CountBound(senders: seq<Sender>)
    ensures CountOver(senders) <= |senders|
  {
    if senders != [] {
      CountBound(senders[1..]);
    }
  }

  lemma {:induction false} CountReady(senders: seq<Sender>)
    requires forall t :: 0 <= t < |senders| ==> senders[t] == Ready
    ensures CountOver(senders) == 0
  {
    if senders != [] {
      CountReady(senders[1..]);
    }
  }

  /** The counter exceeds the limit by no more than the senders that are over it; the
      nonces given out ascend, below the limit and the counter. */
  ghost predicate Inv(s: State) {
    && s.counter <= REJECT_AFTER_MESSAGES + CountOver(s.senders)
    && (forall i :: 0 <= i < |s.issued| ==> s.issued[i] < s.counter && s.issued[i] < REJECT_AFTER_MESSAGES)
    && (forall i, j :: 0 <= i < j < |s.issued| ==> s.issued[i] < s.issued[j])
  }

  lemma StepInv(s: State, a: Action)
    requires Inv(s) && Enabled(s, a) && |s.senders| <= SLACK
    ensures Inv(Step(s, a)) && |Step(s, a).senders| == |s.senders|
    ensures a.Draw? ==> Step(s, a).counter == s.counter + 1
    ensures s.counter >= REJECT_AFTER_MESSAGES ==> Step(s, a).counter >= REJECT_AFTER_MESSAGES
  {
    CountBound(s.senders);
    match a {
      case Draw(t) =>
        CountUpdate(s.senders, t, Over);
        CountBound(s.senders[t := Over]);
      case PutBack(t) =>
        CountUpdate(s.senders, t, Ready);
      case Expire =>
    }
  }

  /** With up to 2^13 senders, however they and expiry interleave: no nonce is given
      twice and none at or above the limit; the counter never wraps, and never falls
      below the limit once it is there. */
  lemma {:induction false} NoncesUnique(s: State, run: seq<Action>)
    requires Inv(s) && IsRun(s, run) && |s.senders| <= SLACK
    ensures Inv(Final(s, run)) && |Final(s, run).senders| == |s.senders|
    ensures s.counter >= REJECT_AFTER_MESSAGES ==> Final(s, run).counter >= REJECT_AFTER_MESSAGES
    decreases |run|
  {
    if run != [] {
      StepInv(s, run[0]);
      NoncesUnique(Step(s, run[0]), run[1..]);
    }
  }

  /** Once a keypair has expired, no nonce is given any more. */
  lemma {:induction false} ExpiryIsFinal(s: State, run: seq<Action>)
    requires Inv(s) && |s.senders| <= SLACK && IsRun(s, [Expire] + run)
    ensures Final(s, [Expire] + run).issued == s.issued
  {
    assert ([Expire] + run)[1..] == run;
    StepInv(s, Expire);
    NoneGiven(Step(s, Expire), run);
  }

  lemma {:induction false} NoneGiven(s: State, run: seq<Action>)
    requires Inv(s) && |s.senders| <= SLACK && IsRun(s, run) && s.counter >= REJECT_AFTER_MESSAGES
    ensures Final(s, run).issued == s.issued
    decreases |run|
  {
    if run != [] {
      StepInv(s, run[0]);
      NoneGiven(Step(s, run[0]), run[1..]);
    }
  }

  lemma StartInv(n: nat)
    ensures Inv(Start(n))
  {
    CountReady(Start(n).senders);
  }

  // ----- how many senders are too many

  /** Senders t to m - 1 draw one after the other. */
  function AllDraw(t: nat, m: nat): seq<Action>
    requires t <= m
    decreases m - t
  {
    if t == m then [] else [Draw(t)] + AllDraw(t + 1, m)
  }

  lemma {:induction false} DrawnBeyond(s: State, t: nat, m: nat)
    requires t <= m <= |s.senders| && m <= SLACK + 1 && s.counter == (REJECT_AFTER_MESSAGES + t) % WRAP64
    requires forall i :: t <= i < |s.senders| ==> s.senders[i] == Ready
    ensures IsRun(s, AllDraw(t, m))
    ensures var s' := Final(s, AllDraw(t, m));
      && s'.counter == (REJECT_AFTER_MESSAGES + m) % WRAP64 && s'.issued == s.issued && |s'.senders| == |s.senders|
      && forall i :: m <= i < |s.senders| ==> s'.senders[i] == Ready
    decreases m - t
  {
    if t < m {
      var run := AllDraw(t, m);
      assert run[0] == Draw(t) && run[1..] == AllDraw(t + 1, m);
      DrawnBeyond(Step(s, Draw(t)), t + 1, m);
    }
  }

  /** From a run of n senders on, the counter falls below the limit it had reached. */
  ghost predicate Falls(n: nat, before: seq<Action>, after: seq<Action>) {
    && IsRun(Start(n), before) && Final(Start(n), before).counter >= REJECT_AFTER_MESSAGES
    && IsRun(Final(Start(n), before), after) && Final(Final(Start(n), before), after).counter < REJECT_AFTER_MESSAGES
  }

  /** The counter can fall below the limit if and only if there are more than 2^13 senders. */
  lemma OneTooMany(n: nat)
    ensures (exists before, after :: Falls(n, before, after)) <==> n > SLACK
  {
    if n > SLACK {
      var before := [Expire];
      assert before[1..] == [];
      DrawnBeyond(Step(Start(n), Expire), 0, SLACK + 1);
      assert Falls(n, before, AllDraw(0, SLACK + 1));
    } else {
      forall before, after ensures !Falls(n, before, after) {
        if Falls(n, before, after) {
          StartInv(n);
          NoncesUnique(Start(n), before);
          NoncesUnique(Final(Start(n), before), after);
        }
      }
    }
  }

  ghost predicate Ascending(issued: seq<uint64>) {
    forall i, j :: 0 <= i < j < |issued| ==> issued[i] < issued[j]
  }

  /** What is kept even by 2^13 + 1 senders: when the last of them wraps the counter, all
      are over the limit, so that the next thing to happen is that one puts it back. */
  ghost predicate WeakInv(s: State) {
    && Ascending(s.issued) && (forall i :: 0 <= i < |s.issued| ==> s.issued[i] < REJECT_AFTER_MESSAGES)
    && if s.counter <= REJECT_AFTER_MESSAGES + CountOver(s.senders) && (s.counter == 0 ==> s.issued == [])
       then forall i :: 0 <= i < |s.issued| ==> s.issued[i] < s.counter
       else s.counter == 0 && CountOver(s.senders) == |s.senders|
  }

  lemma DrawWeakInv(s: State, t: nat)
    requires WeakInv(s) && Enabled(s, Draw(t)) && |s.senders| <= SLACK + 1
    ensures WeakInv(Step(s, Draw(t)))
  {
    CountUpdate(s.senders, t, Over);
    CountBound(s.senders[t := Over]);
    hide CountOver;
    assert CountOver(s.senders) < |s.senders|;
    if s.counter < REJECT_AFTER_MESSAGES {
      assert Step(s, Draw(t)).counter == s.counter + 1;
    }
  }

  lemma StepWeakInv(s: State, a: Action)
    requires WeakInv(s) && Enabled(s, a) && |s.senders| <= SLACK + 1
    ensures WeakInv(Step(s, a)) && |Step(s, a).senders| == |s.senders|
  {
    match a {
      case Draw(t) => DrawWeakInv(s, t);
      case PutBack(t) =>
        CountBound(s.senders);
        CountUpdate(s.senders, t, Ready);
      case Expire =>
    }
  }

  lemma {:induction false} RunWeakInv(s: State, run: seq<Action>)
    requires WeakInv(s) && IsRun(s, run) && |s.senders| <= SLACK + 1
    ensures WeakInv(Final(s, run))
    decreases |run|
  {
    if run != [] {
      StepWeakInv(s, run[0]);
      RunWeakInv(Step(s, run[0]), run[1..]);
    }
  }

  /** A run in which one nonce is given twice: the first packet, expiry, then 2^13 + 1
      draws beyond the limit, and the next sender starts over. */
  lemma GivenTwice(n: nat) returns (run: seq<Action>)
    requires n >= SLACK + 2
    ensures IsRun(Start(n), run) && Final(Start(n), run).issued == [0, 0]
  {
    var s1 := Step(Start(n), Draw(0));
    var s2 := Step(s1, Expire);
    DrawnBeyond(s2, 0, SLACK + 1);
    var many := AllDraw(0, SLACK + 1);
    var s3 := Final(s2, many);
    assert [Draw(SLACK + 1)][1..] == [];
    FinalThen(s2, many, [Draw(SLACK + 1)]);
    run := [Draw(0)] + ([Expire] + (many + [Draw(SLACK + 1)]));
    assert run[1..] == [Expire] + (many + [Draw(SLACK + 1)]) && run[1..][1..] == many + [Draw(SLACK + 1)];
    assert IsRun(s1, run[1..]);
  }

  lemma {:induction false} FinalThen(s: State, a: seq<Action>, b: seq<Action>)
    requires IsRun(s, a) && IsRun(Final(s, a), b)
    ensures IsRun(s, a + b) && Final(s, a + b) == Final(Final(s, a), b)
    decreases |a|
  {
    if a == [] {
      assert a + b == b;
    } else {
      assert (a + b)[1..] == a[1..] + b;
      FinalThen(Step(s, a[0]), a[1..], b);
    }
  }

  /** In every run every nonce is given at most once, in ascending order, if and only if
      there are at most 2^13 + 1 senders. */
  lemma ReuseExact(n: nat)
    ensures (forall run :: IsRun(Start(n), run) ==> Ascending(Final(Start(n), run).issued)) <==> n <= SLACK + 1
  {
    if n <= SLACK + 1 {
      forall run | IsRun(Start(n), run) ensures Ascending(Final(Start(n), run).issued) {
        CountReady(Start(n).senders);
        RunWeakInv(Start(n), run);
      }
    } else {
      var run := GivenTwice(n);
      var issued := Final(Start(n), run).issued;
      assert issued[0] == issued[1];
    }
  }

  // ----- one container

  /** A packet: which one it is, and the nonce it was given. */
  datatype Element = Element(id: nat, nonce: uint64)

  /** The packets whose draw is below the limit, with their nonces, in order. */
  function Kept(elems: seq<Element>, draws: seq<uint64>): seq<Element>
    requires |elems| == |draws|
  {
    if elems == [] then [] else
    var n := |elems| - 1;
    Kept(elems[..n], draws[..n]) + if draws[n] < REJECT_AFTER_MESSAGES then [elems[n].(nonce := draws[n])] else []
  }

  /** The others, to be staged again, in order. */
  function OutOfOrder(elems: seq<Element>, draws: seq<uint64>): seq<Element>
    requires |elems| == |draws|
  {
    if elems == [] then [] else
    var n := |elems| - 1;
    OutOfOrder(elems[..n], draws[..n]) + if draws[n] < REJECT_AFTER_MESSAGES then [] else [elems[n].(nonce := draws[n])]
  }

  /** Compacts the container in place; the draws are what the counter gave. */
  method AssignNonces(elems: array<Element>, draws: seq<uint64>) returns (i: nat, outOfOrder: seq<Element>)
    requires elems.Length == |draws|
    modifies elems
    ensures i <= elems.Length && elems[..i] == Kept(old(elems[..]), draws)
    ensures outOfOrder == OutOfOrder(old(elems[..]), draws)
  {
    i, outOfOrder := 0, [];
    ghost var was := elems[..];
    for k := 0 to elems.Length
      invariant i <= k && elems[..i] == Kept(was[..k], draws[..k]) && outOfOrder == OutOfOrder(was[..k], draws[..k])
      invariant forall j :: k <= j < elems.Length ==> elems[j] == was[j]
    {
      var elem := elems[k].(nonce := draws[k]);
      assert was[..k + 1][..k] == was[..k] && draws[..k + 1][..k] == draws[..k];
      if draws[k] >= REJECT_AFTER_MESSAGES {
        outOfOrder := outOfOrder + [elem];
      } else {
        elems[i] := elem;
        i := i + 1;
        assert elems[..i] == elems[..i - 1] + [elem];
      }
    }
    assert was[..|was|] == was && draws[..|draws|] == draws;
  }

  function Ids(elems: seq<Element>): multiset<nat> {
    if elems == [] then multiset{} else Ids(elems[..|elems| - 1]) + multiset{elems[|elems| - 1].id}
  }

  lemma IdsSnoc(elems: seq<Element>, e: Element)
    ensures Ids(elems + [e]) == Ids(elems) + multiset{e.id}
  {
    assert (elems + [e])[..|elems|] == elems;
  }

  /** The split is a partition: every packet is in exactly one part, and none gained. */
  lemma {:induction false} SplitPartitions(elems: seq<Element>, draws: seq<uint64>)
    requires |elems| == |draws|
    ensures Ids(Kept(elems, draws)) + Ids(OutOfOrder(elems, draws)) == Ids(elems)
  {
    if elems != [] {
      var n := |elems| - 1;
      var kept, out, e := Kept(elems[..n], draws[..n]), OutOfOrder(elems[..n], draws[..n]),
        elems[n].(nonce := draws[n]);
      SplitPartitions(elems[..n], draws[..n]);
      if draws[n] < REJECT_AFTER_MESSAGES {
        assert Kept(elems, draws) == kept + [e] && OutOfOrder(elems, draws) == out;
        IdsSnoc(kept, e);
      } else {
        assert Kept(elems, draws) == kept && OutOfOrder(elems, draws) == out + [e];
        IdsSnoc(out, e);
      }
    }
  }

  /** Only nonces below the limit are sent. */
  lemma {:induction false} KeptBelowLimit(elems: seq<Element>, draws: seq<uint64>, e: Element)
    requires |elems| == |draws| && e in Kept(elems, draws)
    ensures e.nonce < REJECT_AFTER_MESSAGES
  {
    var n := |elems| - 1;
    if e in Kept(elems[..n], draws[..n]) {
      KeptBelowLimit(elems[..n], draws[..n], e);
    }
  }
}
