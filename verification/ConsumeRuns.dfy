/** Consuming an initiation: the record is tested under its read lock and written under its
    write lock. Here several workers do so at once, for one peer; a step is one of the two
    parts. */
module InitiationRuns {
  import opened Exchanges

  /** The record's two fields, the timestamps of the initiations that have passed the tests
      and are not yet written, by worker, and what was accepted: timestamps and times. */
  datatype State = State(lastTimestamp: nat, lastConsumption: int, open: map<nat, nat>, accepted: seq<(nat, int)>)

  datatype Step =
    | Test(worker: nat, timestamp: nat, now: int)
    | Write(worker: nat, now: int)

  predicate Enabled(s: State, st: Step) {
    if st.Test? then st.worker !in s.open else st.worker in s.open
  }

  predicate Passes(s: State, timestamp: nat, now: int) {
    timestamp > s.lastTimestamp && now - s.lastConsumption > HANDSHAKE_INITIATION_RATE
  }

  function Later(a: int, b: int): int {
    if a > b then a else b
  }

  function After(s: State, st: Step): State
    requires Enabled(s, st)
  {
    match st
    case Test(w, timestamp, now) => if Passes(s, timestamp, now) then s.(open := s.open[w := timestamp]) else s
    case Write(w, now) =>
      State(Later(s.lastTimestamp, s.open[w]), Later(s.lastConsumption, now), s.open - {w},
        s.accepted + [(s.open[w], now)])
  }

  /** Every step is enabled, and time does not go back. */
  ghost predicate IsRun(s: State, run: seq<Step>, t: int)
    decreases |run|
  {
    run != [] ==> Enabled(s, run[0]) && t <= run[0].now && IsRun(After(s, run[0]), run[1..], run[0].now)
  }

  ghost function Final(s: State, run: seq<Step>, t: int): State
    requires IsRun(s, run, t)
    decreases |run|
  {
    if run == [] then s else Final(After(s, run[0]), run[1..], run[0].now)
  }

  /** Timestamps ascend, and each was accepted long enough after those before. */
  ghost predicate Spaced(accepted: seq<(nat, int)>) {
    forall i, j :: 0 <= i < j < |accepted| ==>
      accepted[i].0 < accepted[j].0 && accepted[j].1 - accepted[i].1 > HANDSHAKE_INITIATION_RATE
  }

  /** No initiation passes the tests while another is about to be written. */
  ghost predicate Alone(s: State, run: seq<Step>, t: int)
    requires IsRun(s, run, t)
    decreases |run|
  {
    run != [] ==>
      && (run[0].Test? && Passes(s, run[0].timestamp, run[0].now) ==> s.open == map[])
      && Alone(After(s, run[0]), run[1..], run[0].now)
  }

  /** What was accepted is spaced, the fields show the last of it, and at most one
      initiation is open, which may be written at any time. */
  ghost predicate Inv(s: State, t: int) {
    && Spaced(s.accepted)
    && (forall i :: 0 <= i < |s.accepted| ==>
          s.accepted[i].0 <= s.lastTimestamp && s.accepted[i].1 <= s.lastConsumption)
    && (forall w, v :: w in s.open && v in s.open ==> w == v)
    && (forall w :: w in s.open ==> Passes(s, s.open[w], t))
  }

  lemma StepInv(s: State, st: Step, t: int)
    requires Inv(s, t) && Enabled(s, st) && t <= st.now
    requires st.Test? && Passes(s, st.timestamp, st.now) ==> s.open == map[]
    ensures Inv(After(s, st), st.now)
  {
  }

  /** As long as initiations are alone, what is accepted is spaced. */
  lemma {:induction false} AloneSpaced(s: State, run: seq<Step>, t: int)
    requires Inv(s, t) && IsRun(s, run, t) && Alone(s, run, t)
    ensures Spaced(Final(s, run, t).accepted)
    decreases |run|
  {
    if run != [] {
      StepInv(s, run[0], t);
      AloneSpaced(After(s, run[0]), run[1..], run[0].now);
    }
  }

  const START := State(0, 0, map[], [])

  /** From the start, whatever arrives: as long as initiations are alone, none is accepted
      too early, out of order or twice. */
  lemma FromStart(run: seq<Step>, t: int)
    requires IsRun(START, run, t) && Alone(START, run, t)
    ensures Spaced(Final(START, run, t).accepted)
  {
    AloneSpaced(START, run, t);
  }

  /** Two open initiations are both accepted, at one time. */
  lemma BothAccepted(s: State, v: nat, w: nat, t: int)
    requires v in s.open && w in s.open && v != w
    ensures var run := [Write(v, t), Write(w, t)];
      && IsRun(s, run, t) && Alone(s, run, t)
      && Final(s, run, t).accepted == s.accepted + [(s.open[v], t)] + [(s.open[w], t)]
  {
    var run := [Write(v, t), Write(w, t)];
    var s1 := After(s, run[0]);
    var s2 := After(s1, run[1]);
    assert run[1..] == [Write(w, t)] && run[1..][1..] == [];
    assert IsRun(s2, [], t) && Alone(s2, [], t) && Final(s2, [], t) == s2;
    assert IsRun(s1, run[1..], t) && Alone(s1, run[1..], t) && Final(s1, run[1..], t) == s2;
  }

  /** From a state in which all is well so far: everything accepted from here on, with no
      further overlap, is spaced if and only if no two initiations are open now. */
  lemma SpacedExactly(s: State, t: int)
    requires Spaced(s.accepted) && (forall w :: w in s.open ==> Passes(s, s.open[w], t))
    requires forall i :: 0 <= i < |s.accepted| ==>
      s.accepted[i].0 <= s.lastTimestamp && s.accepted[i].1 <= s.lastConsumption
    ensures (forall run :: IsRun(s, run, t) && Alone(s, run, t) ==> Spaced(Final(s, run, t).accepted)) <==>
      forall w, v :: w in s.open && v in s.open ==> w == v
  {
    if v, w :| v in s.open && w in s.open && v != w {
      BothAccepted(s, v, w, t);
      var run := [Write(v, t), Write(w, t)];
      var all, n := Final(s, run, t).accepted, |s.accepted|;
      assert all[n] == (s.open[v], t) && all[n + 1] == (s.open[w], t);
      assert !Spaced(all);
    } else {
      forall run | IsRun(s, run, t) && Alone(s, run, t) ensures Spaced(Final(s, run, t).accepted) {
        AloneSpaced(s, run, t);
      }
    }
  }

  /** Two workers take one initiation: it is accepted twice. */
  lemma AcceptedTwice(s: State, timestamp: nat, v: nat, w: nat, t: int)
    requires v !in s.open && w !in s.open && v != w && Passes(s, timestamp, t)
    ensures var run := [Test(v, timestamp, t)] + ([Test(w, timestamp, t)] + [Write(v, t), Write(w, t)]);
      IsRun(s, run, t) && Final(s, run, t).accepted == s.accepted + [(timestamp, t)] + [(timestamp, t)]
  {
    var s1 := After(s, Test(v, timestamp, t));
    var s2 := After(s1, Test(w, timestamp, t));
    var last := [Write(v, t), Write(w, t)];
    BothAccepted(s2, v, w, t);
    assert ([Test(w, timestamp, t)] + last)[1..] == last;
    var run := [Test(v, timestamp, t)] + ([Test(w, timestamp, t)] + last);
    assert run[1..] == [Test(w, timestamp, t)] + last;
  }
}

/** Consuming a response: likewise. Exchanges are numbered as they begin. */
module ResponseRuns {

  datatype Progress = Idle | Begun | Ended

  /** The exchange the record is about and how far it is, the next number, the exchanges of
      the responses that have passed the test and are not yet written, by worker, and the
      exchanges that keypairs were derived from. */
  datatype State = State(progress: Progress, exchange: nat, next: nat, open: map<nat, nat>, made: seq<nat>)

  datatype Step =
    | Initiate          // an initiation is created: a new exchange
    | Test(worker: nat) // a response to it opens
    | Write(worker: nat)
    | Derive            // the session begins

  predicate Enabled(s: State, st: Step) {
    match st
    case Test(w) => w !in s.open && s.progress == Begun
    case Write(w) => w in s.open
    case _ => true
  }

  function After(s: State, st: Step): State
    requires Enabled(s, st)
  {
    match st
    case Initiate => s.(progress := Begun, exchange := s.next, next := s.next + 1)
    case Test(w) => s.(open := s.open[w := s.exchange])
    case Write(w) => s.(progress := Ended, exchange := s.open[w], open := s.open - {w})
    case Derive => if s.progress == Ended then s.(progress := Idle, made := s.made + [s.exchange]) else s
  }

  ghost predicate IsRun(s: State, run: seq<Step>)
    decreases |run|
  {
    run != [] ==> Enabled(s, run[0]) && IsRun(After(s, run[0]), run[1..])
  }

  ghost function Final(s: State, run: seq<Step>): State
    requires IsRun(s, run)
    decreases |run|
  {
    if run == [] then s else Final(After(s, run[0]), run[1..])
  }

  /** No response passes the test while another is about to be written. */
  ghost predicate Alone(s: State, run: seq<Step>)
    requires IsRun(s, run)
    decreases |run|
  {
    run != [] ==> (run[0].Test? ==> s.open == map[]) && Alone(After(s, run[0]), run[1..])
  }

  ghost predicate Distinct(made: seq<nat>) {
    forall i, j :: 0 <= i < j < |made| ==> made[i] != made[j]
  }

  /** Numbers in use were given out, and an exchange that has begun has no keypair yet. */
  ghost predicate Numbered(s: State) {
    && (forall n :: n in s.made ==> n < s.next) && (forall w :: w in s.open ==> s.open[w] < s.next)
    && (s.progress != Idle ==> s.exchange < s.next)
    && (s.progress == Begun ==> s.exchange !in s.made)
  }

  /** Every exchange that can still give a keypair can do so once, and has not. */
  ghost predicate Once(s: State) {
    && (forall w :: w in s.open ==> s.open[w] !in s.made)
    && (forall v, w :: v in s.open && w in s.open && s.open[v] == s.open[w] ==> v == w)
    && (s.progress == Ended ==> s.exchange !in s.made && forall w :: w in s.open ==> s.open[w] != s.exchange)
  }

  lemma StepOnce(s: State, st: Step)
    requires Numbered(s) && Once(s) && Distinct(s.made) && Enabled(s, st) && (st.Test? ==> s.open == map[])
    ensures Numbered(After(s, st)) && Once(After(s, st)) && Distinct(After(s, st).made)
  {
  }

  lemma {:induction false} AloneDistinct(s: State, run: seq<Step>)
    requires Numbered(s) && Once(s) && Distinct(s.made) && IsRun(s, run) && Alone(s, run)
    ensures Distinct(Final(s, run).made)
    decreases |run|
  {
    if run != [] {
      StepOnce(s, run[0]);
      AloneDistinct(After(s, run[0]), run[1..]);
    }
  }

  lemma {:induction false} Prefixed(s: State, st: Step, run: seq<Step>)
    requires Enabled(s, st) && !st.Test? && IsRun(After(s, st), run) && Alone(After(s, st), run)
    ensures IsRun(s, [st] + run) && Alone(s, [st] + run) && Final(s, [st] + run) == Final(After(s, st), run)
  {
    hide Enabled, After;
    assert ([st] + run)[1..] == run;
  }

  /** An open response, or one just written, gives a keypair of its exchange. */
  lemma Derives(s: State)
    requires s.progress == Ended
    ensures IsRun(s, [Derive]) && Alone(s, [Derive]) && Final(s, [Derive]).made == s.made + [s.exchange]
  {
    var t := After(s, Derive);
    assert IsRun(t, []) && Alone(t, []);
    Prefixed(s, Derive, []);
    assert [Derive] + [] == [Derive];
  }

  lemma WritesAndDerives(s: State, w: nat)
    requires w in s.open
    ensures var run := [Write(w)] + [Derive];
      IsRun(s, run) && Alone(s, run) && Final(s, run).made == s.made + [s.open[w]]
  {
    Derives(After(s, Write(w)));
    Prefixed(s, Write(w), [Derive]);
  }

  lemma Repeats(made: seq<nat>, n: nat)
    requires n in made
    ensures !Distinct(made + [n])
  {
    var i :| 0 <= i < |made| && made[i] == n;
    assert (made + [n])[i] == (made + [n])[|made|];
  }

  /** A run, with no further overlap, in which an exchange gives two keypairs. */
  lemma Twice(s: State) returns (run: seq<Step>)
    requires Numbered(s) && Distinct(s.made) && !Once(s)
    ensures IsRun(s, run) && Alone(s, run) && !Distinct(Final(s, run).made)
  {
    if s.progress == Ended && s.exchange in s.made {
      Derives(s);
      Repeats(s.made, s.exchange);
      run := [Derive];
    } else if w :| w in s.open && s.open[w] in s.made {
      WritesAndDerives(s, w);
      Repeats(s.made, s.open[w]);
      run := [Write(w)] + [Derive];
    } else if s.progress == Ended && exists w :: w in s.open && s.open[w] == s.exchange {
      var w :| w in s.open && s.open[w] == s.exchange;
      var s1 := After(s, Derive);
      WritesAndDerives(s1, w);
      Repeats(s1.made, s1.open[w]);
      run := [Write(w)] + [Derive];
      Prefixed(s, Derive, run);
      run := [Derive] + run;
    } else {
      var v, w :| v in s.open && w in s.open && s.open[v] == s.open[w] && v != w;
      var s1 := After(s, Write(v));
      var s2 := After(s1, Derive);
      WritesAndDerives(s2, w);
      Repeats(s2.made, s2.open[w]);
      run := [Write(w)] + [Derive];
      Prefixed(s1, Derive, run);
      run := [Derive] + run;
      Prefixed(s, Write(v), run);
      run := [Write(v)] + run;
    }
  }

  /** From a state in which all is well so far: with no further overlap no exchange gives
      two keypairs, if and only if no two responses to one exchange are open or written. */
  lemma OnceExactly(s: State)
    requires Numbered(s) && Distinct(s.made)
    ensures (forall run :: IsRun(s, run) && Alone(s, run) ==> Distinct(Final(s, run).made)) <==> Once(s)
  {
    if Once(s) {
      forall run | IsRun(s, run) && Alone(s, run) ensures Distinct(Final(s, run).made) {
        AloneDistinct(s, run);
      }
    } else {
      var run := Twice(s);
    }
  }

  const START := State(Idle, 0, 0, map[], [])

  /** From the start: as long as responses are alone, no exchange gives two keypairs. */
  lemma FromStart(run: seq<Step>)
    requires IsRun(START, run) && Alone(START, run)
    ensures Distinct(Final(START, run).made)
  {
    AloneDistinct(START, run);
  }
}
