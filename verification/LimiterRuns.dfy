/** Calls of the rate limiter that overlap. The table's lock is released between the
    look-up and what follows, so a call is three steps: it looks its address up; it
    reads the clock and charges the entry it found, or starts a new entry if it found
    none; it publishes a new entry. The collector takes one address at a time, and may
    come between any two steps. Entries are objects: one that left the table can still
    be charged by a call that found it there. */
module LimiterRuns {
  import opened Ratelimiter

  datatype Phase = Missed | Made(at: int) | Found(ref: nat)
  datatype Call<Addr> = Call(ip: Addr, phase: Phase)

  datatype Step<Addr> =
    | LookUp(call: nat, ip: Addr)
    | Decide(call: nat, now: int)
    | Publish(call: nat)
    | Sweep(ip: Addr, now: int)

  datatype State<Addr> = State(heap: seq<Entry>, table: map<Addr, nat>, calls: map<nat, Call<Addr>>)

  ghost function Start<Addr(!new)>(): State<Addr> {
    State([], map[], map[])
  }

  /** Whether an entry pays for a packet at an instant, and what is left of it. */
  ghost predicate Pays(e: Entry, now: int) {
    LevelOf(e, now) > PACKET_COST
  }

  ghost function Charged(e: Entry, now: int): Entry {
    Entry(now, LevelOf(e, now) - if Pays(e, now) then PACKET_COST else 0)
  }

  ghost predicate WellFormed<Addr(!new)>(s: State<Addr>) {
    && (forall ip :: ip in s.table ==> s.table[ip] < |s.heap|)
    && (forall c :: c in s.calls && s.calls[c].phase.Found? ==> s.calls[c].phase.ref < |s.heap|)
  }

  ghost predicate IsFound<Addr(!new)>(s: State<Addr>, c: nat) {
    c in s.calls && s.calls[c].phase.Found?
  }

  ghost predicate IsFirst<Addr(!new)>(s: State<Addr>, c: nat, ip: Addr) {
    c in s.calls && s.calls[c].ip == ip && !s.calls[c].phase.Found?
  }

  /** A step whose call is not at that point does nothing. */
  ghost function Next<Addr(!new)>(s: State<Addr>, e: Step<Addr>): (s': State<Addr>)
    requires WellFormed(s)
    ensures WellFormed(s')
  {
    match e
    case LookUp(c, ip) =>
      if c in s.calls then s else
      s.(calls := s.calls[c := Call(ip, if ip in s.table then Found(s.table[ip]) else Missed)])
    case Decide(c, now) =>
      if c !in s.calls then s else
      (match s.calls[c].phase
       case Missed => s.(calls := s.calls[c := s.calls[c].(phase := Made(now))])
       case Made(_) => s
       case Found(ref) => s.(heap := s.heap[ref := Charged(s.heap[ref], now)], calls := s.calls - {c}))
    case Publish(c) =>
      if c in s.calls && s.calls[c].phase.Made? then
        State(s.heap + [Entry(s.calls[c].phase.at, MAX_TOKENS - PACKET_COST)], s.table[s.calls[c].ip := |s.heap|],
          s.calls - {c})
      else s
    case Sweep(ip, now) =>
      if Deletes(s, ip, now) then s.(table := s.table - {ip}) else s
  }

  ghost predicate Deletes<Addr(!new)>(s: State<Addr>, ip: Addr, now: int)
    requires WellFormed(s)
  {
    ip in s.table && Idle(s.heap[s.table[ip]], now)
  }

  /** The call decides in this step: for which packet, and how. */
  ghost predicate Decides<Addr(!new)>(s: State<Addr>, e: Step<Addr>) {
    e.Decide? && e.call in s.calls && !s.calls[e.call].phase.Made?
  }

  ghost function Decision<Addr(!new)>(s: State<Addr>, e: Step<Addr>): bool
    requires WellFormed(s) && Decides(s, e)
  {
    s.calls[e.call].phase.Missed? || Pays(s.heap[s.calls[e.call].phase.ref], e.now)
  }

  ghost function Last<Addr(!new)>(s: State<Addr>, steps: seq<Step<Addr>>): (s': State<Addr>)
    requires WellFormed(s)
    ensures WellFormed(s')
    decreases |steps|
  {
    if steps == [] then s else Last(Next(s, steps[0]), steps[1..])
  }

  /** The answers of a run, and the packets they answer, in the order of their clock readings. */
  ghost function Answers<Addr(!new)>(s: State<Addr>, steps: seq<Step<Addr>>): seq<bool>
    requires WellFormed(s)
    decreases |steps|
  {
    if steps == [] then [] else
    (if Decides(s, steps[0]) then [Decision(s, steps[0])] else []) + Answers(Next(s, steps[0]), steps[1..])
  }

  ghost function Asked<Addr(!new)>(s: State<Addr>, steps: seq<Step<Addr>>): seq<Event<Addr>>
    requires WellFormed(s)
    decreases |steps|
  {
    if steps == [] then [] else
    (if Decides(s, steps[0]) then [Packet(s.calls[steps[0].call].ip, steps[0].now)] else [])
    + Asked(Next(s, steps[0]), steps[1..])
  }

  // ----- time

  ghost function Instant<Addr(!new)>(e: Step<Addr>, t: int): int {
    if e.Decide? || e.Sweep? then e.now else t
  }

  ghost predicate Timely<Addr(!new)>(steps: seq<Step<Addr>>, t: int) {
    steps != [] ==> t <= Instant(steps[0], t) && Timely(steps[1..], Instant(steps[0], t))
  }

  ghost function Until<Addr(!new)>(steps: seq<Step<Addr>>, t: int): int {
    if steps == [] then t else Until(steps[1..], Instant(steps[0], t))
  }

  // ----- the condition

  /** The step disturbs no call: a look-up that misses meets no other first call for its
      address under way, and no entry is collected that a call has found and not charged. */
  ghost predicate Undisturbing<Addr(!new)>(s: State<Addr>, e: Step<Addr>)
    requires WellFormed(s)
  {
    && (e.LookUp? && e.call !in s.calls && e.ip !in s.table ==> forall c :: !IsFirst(s, c, e.ip))
    && (e.Sweep? && Deletes(s, e.ip, e.now) ==> forall c :: IsFound(s, c) ==> s.calls[c].ip != e.ip)
  }

  ghost predicate Clean<Addr(!new)>(s: State<Addr>, steps: seq<Step<Addr>>)
    requires WellFormed(s)
    decreases |steps|
  {
    steps != [] ==> Undisturbing(s, steps[0]) && Clean(Next(s, steps[0]), steps[1..])
  }

  // ----- clean runs answer as the sequential limiter that never deletes

  /** The state stands for the table `big` of a limiter that charges each packet at
      once and never deletes. */
  ghost predicate Stands<Addr(!new)>(s: State<Addr>, big: map<Addr, Entry>, t: int)
    requires WellFormed(s)
  {
    && Sane(big, t)
    && (forall ip :: ip in s.table ==> ip in big && s.heap[s.table[ip]] == big[ip])
    && (forall a, b :: a in s.table && b in s.table && s.table[a] == s.table[b] ==> a == b)
    && (forall ip :: ip in big && ip !in s.table ==> LevelOf(big[ip], t) == MAX_TOKENS || Pending(s, ip, big[ip]))
    && (forall c :: IsFound(s, c) ==> s.calls[c].ip in s.table && s.table[s.calls[c].ip] == s.calls[c].phase.ref)
    && (forall c :: c in s.calls ==> FirstOk(s, c, big, t))
    && (forall c, d, ip :: IsFirst(s, c, ip) && IsFirst(s, d, ip) ==> c == d)
  }

  ghost predicate FirstOk<Addr(!new)>(s: State<Addr>, c: nat, big: map<Addr, Entry>, t: int)
    requires c in s.calls
  {
    var ip := s.calls[c].ip;
    match s.calls[c].phase
    case Missed => ip !in s.table && (ip in big ==> LevelOf(big[ip], t) == MAX_TOKENS)
    case Made(at) => ip !in s.table && ip in big && big[ip] == Entry(at, MAX_TOKENS - PACKET_COST)
    case Found(_) => true
  }

  /** A call is about to publish this entry. */
  ghost predicate Pending<Addr(!new)>(s: State<Addr>, ip: Addr, e: Entry) {
    exists c :: c in s.calls && s.calls[c] == Call(ip, Made(e.lastTime)) && e.tokens == MAX_TOKENS - PACKET_COST
  }

  ghost function NextBig<Addr(!new)>(s: State<Addr>, e: Step<Addr>, big: map<Addr, Entry>): map<Addr, Entry> {
    if Decides(s, e) then Ratelimiter.Step(big, Packet(s.calls[e.call].ip, e.now)) else big
  }

  lemma Later<Addr(!new)>(s: State<Addr>, big: map<Addr, Entry>, t: int, t': int)
    requires WellFormed(s) && Stands(s, big, t) && t <= t'
    ensures Stands(s, big, t')
  {
    hide Pending;
    forall c | c in s.calls ensures FirstOk(s, c, big, t') {
      assert FirstOk(s, c, big, t);
    }
  }

  lemma LookUpStands<Addr(!new)>(s: State<Addr>, c: nat, ip: Addr, big: map<Addr, Entry>, t: int)
    requires WellFormed(s) && Stands(s, big, t) && Undisturbing(s, LookUp(c, ip))
    ensures Stands(Next(s, LookUp(c, ip)), big, t)
  {
    var s' := Next(s, LookUp(c, ip));
    if c !in s.calls {
      forall a | a in big && a !in s.table && Pending(s, a, big[a]) ensures Pending(s', a, big[a]) {
        var d :| d in s.calls && s.calls[d] == Call(a, Made(big[a].lastTime));
        assert s'.calls[d] == s.calls[d];
      }
      forall d | d in s'.calls ensures FirstOk(s', d, big, t) {
        if d != c {
          assert FirstOk(s, d, big, t);
        } else if ip !in s.table && ip in big && LevelOf(big[ip], t) != MAX_TOKENS {
          assert Pending(s, ip, big[ip]);
          var p :| p in s.calls && s.calls[p] == Call(ip, Made(big[ip].lastTime));
          assert IsFirst(s, p, ip);
        }
      }
      forall d, f, a | IsFirst(s', d, a) && IsFirst(s', f, a) ensures d == f {
        if d != c && f != c {
          assert IsFirst(s, d, a) && IsFirst(s, f, a);
        } else if d != c {
          assert IsFirst(s, d, ip);
        } else if f != c {
          assert IsFirst(s, f, ip);
        }
      }
    }
  }

  lemma MissStands<Addr(!new)>(s: State<Addr>, c: nat, now: int, big: map<Addr, Entry>)
    requires WellFormed(s) && Stands(s, big, now) && c in s.calls && s.calls[c].phase.Missed?
    ensures Stands(Next(s, Decide(c, now)), NextBig(s, Decide(c, now), big), now)
    ensures Permits(big, s.calls[c].ip, now)
  {
    var ip := s.calls[c].ip;
    var s', big' := Next(s, Decide(c, now)), NextBig(s, Decide(c, now), big);
    assert FirstOk(s, c, big, now) && IsFirst(s, c, ip);
    assert big' == big[ip := Entry(now, MAX_TOKENS - PACKET_COST)];
    assert s'.calls[c] == Call(ip, Made(now)) && Pending(s', ip, big'[ip]);
    forall a | a != ip && a in big && a !in s.table && Pending(s, a, big[a]) ensures Pending(s', a, big'[a]) {
      var d :| d in s.calls && s.calls[d] == Call(a, Made(big[a].lastTime));
      assert s'.calls[d] == s.calls[d];
    }
    forall d | d in s'.calls ensures FirstOk(s', d, big', now) {
      assert FirstOk(s, d, big, now);
      assert d != c && s.calls[d].ip == ip && !s.calls[d].phase.Found? ==> IsFirst(s, d, ip);
    }
    forall d, f, a | IsFirst(s', d, a) && IsFirst(s', f, a) ensures d == f {
      assert IsFirst(s, d, a) && IsFirst(s, f, a);
    }
  }

  lemma ChargeStands<Addr(!new)>(s: State<Addr>, c: nat, now: int, big: map<Addr, Entry>)
    requires WellFormed(s) && Stands(s, big, now) && IsFound(s, c)
    ensures Stands(Next(s, Decide(c, now)), NextBig(s, Decide(c, now), big), now)
    ensures Decision(s, Decide(c, now)) == Permits(big, s.calls[c].ip, now)
  {
    var ip := s.calls[c].ip;
    var s', big' := Next(s, Decide(c, now)), NextBig(s, Decide(c, now), big);
    assert s.table[ip] == s.calls[c].phase.ref;
    assert big' == big[ip := Charged(big[ip], now)];
    forall a | a in big && a !in s.table && Pending(s, a, big[a]) ensures Pending(s', a, big'[a]) {
      var d :| d in s.calls && s.calls[d] == Call(a, Made(big[a].lastTime));
      assert s'.calls[d] == s.calls[d];
    }
    forall d | d in s'.calls ensures FirstOk(s', d, big', now) {
      assert FirstOk(s, d, big, now);
    }
    forall d, f, a | IsFirst(s', d, a) && IsFirst(s', f, a) ensures d == f {
      assert IsFirst(s, d, a) && IsFirst(s, f, a);
    }
  }

  lemma PublishStands<Addr(!new)>(s: State<Addr>, c: nat, big: map<Addr, Entry>, t: int)
    requires WellFormed(s) && Stands(s, big, t)
    ensures Stands(Next(s, Publish(c)), big, t)
  {
    if c in s.calls && s.calls[c].phase.Made? {
      var ip := s.calls[c].ip;
      var s' := Next(s, Publish(c));
      assert FirstOk(s, c, big, t) && IsFirst(s, c, ip);
      forall a | a != ip && a in big && a !in s.table && Pending(s, a, big[a]) ensures Pending(s', a, big[a]) {
        var d :| d in s.calls && s.calls[d] == Call(a, Made(big[a].lastTime));
        assert s'.calls[d] == s.calls[d];
      }
      forall d | d in s'.calls ensures FirstOk(s', d, big, t) {
        assert FirstOk(s, d, big, t);
        assert IsFirst(s, d, ip) ==> d == c;
      }
      forall d, f, a | IsFirst(s', d, a) && IsFirst(s', f, a) ensures d == f {
        assert IsFirst(s, d, a) && IsFirst(s, f, a);
      }
    }
  }

  lemma SweepStands<Addr(!new)>(s: State<Addr>, ip: Addr, now: int, big: map<Addr, Entry>)
    requires WellFormed(s) && Stands(s, big, now) && Undisturbing(s, Sweep(ip, now))
    ensures Stands(Next(s, Sweep(ip, now)), big, now)
  {
    var s' := Next(s, Sweep(ip, now));
    if Deletes(s, ip, now) {
      assert LevelOf(big[ip], now) == MAX_TOKENS;
      forall a | a != ip && a in big && a !in s.table && Pending(s, a, big[a]) ensures Pending(s', a, big[a]) {
        var d :| d in s.calls && s.calls[d] == Call(a, Made(big[a].lastTime));
        assert s'.calls[d] == s.calls[d];
      }
      forall d | d in s'.calls ensures FirstOk(s', d, big, now) {
        assert FirstOk(s, d, big, now);
      }
      forall d, f, a | IsFirst(s', d, a) && IsFirst(s', f, a) ensures d == f {
        assert IsFirst(s, d, a) && IsFirst(s, f, a);
      }
    }
  }

  lemma StepStands<Addr(!new)>(s: State<Addr>, e: Step<Addr>, big: map<Addr, Entry>, t: int)
    requires WellFormed(s) && Stands(s, big, t) && Undisturbing(s, e) && t <= Instant(e, t)
    ensures Stands(Next(s, e), NextBig(s, e, big), Instant(e, t))
    ensures Decides(s, e) ==> Decision(s, e) == Permits(big, s.calls[e.call].ip, e.now)
  {
    hide Stands;
    Later(s, big, t, Instant(e, t));
    match e {
      case LookUp(c, ip) => LookUpStands(s, c, ip, big, t);
      case Decide(c, now) =>
        if c in s.calls && s.calls[c].phase.Missed? {
          MissStands(s, c, now, big);
        } else if IsFound(s, c) {
          ChargeStands(s, c, now, big);
        }
      case Publish(c) => PublishStands(s, c, big, t);
      case Sweep(ip, now) => SweepStands(s, ip, now, big);
    }
  }

  /** The table of the sequential limiter after a run. */
  ghost function LastBig<Addr(!new)>(s: State<Addr>, steps: seq<Step<Addr>>, big: map<Addr, Entry>): map<Addr, Entry>
    requires WellFormed(s)
    decreases |steps|
  {
    if steps == [] then big else LastBig(Next(s, steps[0]), steps[1..], NextBig(s, steps[0], big))
  }

  lemma {:induction false} CleanFrom<Addr(!new)>(s: State<Addr>, steps: seq<Step<Addr>>, big: map<Addr, Entry>, t: int)
    requires WellFormed(s) && Stands(s, big, t) && Timely(steps, t) && Clean(s, steps)
    ensures Answers(s, steps) == Verdicts(big, Asked(s, steps))
    ensures Stands(Last(s, steps), LastBig(s, steps, big), Until(steps, t))
    decreases |steps|
  {
    if steps != [] {
      hide Stands, Undisturbing, WellFormed;
      var e, rest := steps[0], steps[1..];
      StepStands(s, e, big, t);
      CleanFrom(Next(s, e), rest, NextBig(s, e, big), Instant(e, t));
      if Decides(s, e) {
        var p := Packet(s.calls[e.call].ip, e.now);
        assert ([p] + Asked(Next(s, e), rest))[1..] == Asked(Next(s, e), rest);
      } else {
        assert Asked(s, steps) == Asked(Next(s, e), rest);
        assert Answers(s, steps) == Answers(Next(s, e), rest);
      }
    }
  }

  // ----- the condition is exact

  /** However the run goes on undisturbed, it is answered as the sequential limiter would. */
  ghost predicate Faithful<Addr(!new)>(s: State<Addr>, big: map<Addr, Entry>, t: int)
    requires WellFormed(s)
  {
    forall rest :: Timely(rest, t) && Clean(s, rest) ==> Answers(s, rest) == Verdicts(big, Asked(s, rest))
  }

  lemma {:induction false} Then<Addr(!new)>(s: State<Addr>, a: seq<Step<Addr>>, b: seq<Step<Addr>>, t: int)
    requires WellFormed(s)
    ensures Last(s, a + b) == Last(Last(s, a), b)
    ensures Answers(s, a + b) == Answers(s, a) + Answers(Last(s, a), b)
    ensures Asked(s, a + b) == Asked(s, a) + Asked(Last(s, a), b)
    ensures Clean(s, a + b) <==> Clean(s, a) && Clean(Last(s, a), b)
    ensures Timely(a + b, t) <==> Timely(a, t) && Timely(b, Until(a, t))
    ensures Until(a + b, t) == Until(b, Until(a, t))
    decreases |a|
  {
    hide WellFormed, Next, Undisturbing, Decides, Decision;
    if a == [] {
      assert a + b == b;
    } else {
      assert (a + b)[1..] == a[1..] + b;
      Then(Next(s, a[0]), a[1..], b, Instant(a[0], t));
    }
  }

  /** n whole calls, one after the other at one instant. */
  ghost function Calls<Addr(!new)>(ip: Addr, c: nat, n: nat, now: int): seq<Step<Addr>> {
    if n == 0 then [] else [LookUp(c, ip), Decide(c, now)] + Calls(ip, c, n - 1, now)
  }

  ghost function Yes(n: nat): seq<bool> {
    seq(n, _ => true)
  }

  /** The steps pass n packets of an address at an instant, and disturb nothing. */
  ghost predicate Passes<Addr(!new)>(s: State<Addr>, steps: seq<Step<Addr>>, ip: Addr, now: int, n: nat)
    requires WellFormed(s)
  {
    && Answers(s, steps) == Yes(n) && Asked(s, steps) == Copies(ip, now, n)
    && Clean(s, steps) && Timely(steps, now) && Until(steps, now) == now
  }

  lemma PassesThen<Addr(!new)>(s: State<Addr>, a: seq<Step<Addr>>, b: seq<Step<Addr>>, ip: Addr, now: int, m: nat,
      n: nat)
    requires WellFormed(s) && Passes(s, a, ip, now, m) && Passes(Last(s, a), b, ip, now, n)
    ensures Passes(s, a + b, ip, now, m + n)
  {
    hide WellFormed, Answers, Asked, Clean, Timely, Until, Last;
    Then(s, a, b, now);
    assert Yes(m) + Yes(n) == Yes(m + n);
    assert Copies(ip, now, m) + Copies(ip, now, n) == Copies(ip, now, m + n);
  }

  lemma OneStep<Addr(!new)>(s: State<Addr>, e: Step<Addr>, t: int)
    requires WellFormed(s)
    ensures Last(s, [e]) == Next(s, e)
    ensures Answers(s, [e]) == if Decides(s, e) then [Decision(s, e)] else []
    ensures Asked(s, [e]) == if Decides(s, e) then [Packet(s.calls[e.call].ip, e.now)] else []
    ensures Clean(s, [e]) <==> Undisturbing(s, e)
    ensures Timely([e], t) <==> t <= Instant(e, t)
    ensures Until([e], t) == Instant(e, t)
  {
    hide WellFormed, Next, Undisturbing, Decides, Decision;
    assert [e][1..] == [];
  }

  /** A call that finds its entry and pays. */
  lemma LookUpAndDecide<Addr(!new)>(s: State<Addr>, ip: Addr, c: nat, now: int)
    requires WellFormed(s) && ip in s.table && c !in s.calls && Pays(s.heap[s.table[ip]], now)
    ensures !Decides(s, LookUp(c, ip)) && Undisturbing(s, LookUp(c, ip))
    ensures var s1, e := Next(s, LookUp(c, ip)), Decide(c, now);
      && Decides(s1, e) && Decision(s1, e) && s1.calls[c].ip == ip && Undisturbing(s1, e)
      && Next(s1, e) == s.(heap := s.heap[s.table[ip] := Charged(s.heap[s.table[ip]], now)])
  {
    assert Next(s, LookUp(c, ip)).calls - {c} == s.calls;
  }

  lemma WholeCall<Addr(!new)>(s: State<Addr>, ip: Addr, c: nat, now: int)
    requires WellFormed(s) && ip in s.table && c !in s.calls && Pays(s.heap[s.table[ip]], now)
    ensures var steps := [LookUp(c, ip), Decide(c, now)];
      && Passes(s, steps, ip, now, 1)
      && Last(s, steps) == s.(heap := s.heap[s.table[ip] := Charged(s.heap[s.table[ip]], now)])
  {
    hide Undisturbing, Next, Decides, Decision, Pays;
    LookUpAndDecide(s, ip, c, now);
    var s1 := Next(s, LookUp(c, ip));
    OneStep(s, LookUp(c, ip), now);
    OneStep(s1, Decide(c, now), now);
    Then(s, [LookUp(c, ip)], [Decide(c, now)], now);
    assert [LookUp(c, ip), Decide(c, now)] == [LookUp(c, ip)] + [Decide(c, now)];
  }

  lemma {:induction false} CallsPass<Addr(!new)>(s: State<Addr>, ip: Addr, c: nat, n: nat, now: int)
    requires WellFormed(s) && ip in s.table && c !in s.calls
    requires LevelOf(s.heap[s.table[ip]], now) > n * PACKET_COST
    ensures Passes(s, Calls(ip, c, n, now), ip, now, n)
    ensures var s' := Last(s, Calls(ip, c, n, now)); s'.table == s.table && s'.calls == s.calls
    decreases n
  {
    if n > 0 {
      hide Passes;
      WholeCall(s, ip, c, now);
      var call := [LookUp(c, ip), Decide(c, now)];
      var s1 := Last(s, call);
      CallsPass(s1, ip, c, n - 1, now);
      PassesThen(s, call, Calls(ip, c, n - 1, now), ip, now, 1, n - 1);
      Then(s, call, Calls(ip, c, n - 1, now), now);
    }
  }

  /** A first call that comes to its end, and three more. */
  ghost function Fresh<Addr(!new)>(ip: Addr, c: nat, d: nat, now: int): seq<Step<Addr>> {
    [Decide(c, now), Publish(c)] + Calls(ip, d, 3, now)
  }

  lemma FreshPasses<Addr(!new)>(s: State<Addr>, ip: Addr, c: nat, d: nat, now: int)
    requires WellFormed(s) && IsFirst(s, c, ip) && d !in s.calls
    requires (s.calls[c].phase.Made? ==> s.calls[c].phase.at <= now)
    ensures Passes(s, Fresh(ip, c, d, now), ip, now, if s.calls[c].phase.Made? then 3 else 4)
    ensures Last(s, Fresh(ip, c, d, now)).calls == s.calls - {c}
  {
    var k := if s.calls[c].phase.Made? then 0 else 1;
    var s1 := Next(s, Decide(c, now));
    var s2 := Next(s1, Publish(c));
    var end: seq<Step<Addr>> := [Decide(c, now), Publish(c)];
    OneStep(s, Decide(c, now), now);
    OneStep(s1, Publish(c), now);
    Then(s, [Decide(c, now)], [Publish(c)], now);
    assert end == [Decide(c, now)] + [Publish(c)];
    assert Passes(s, end, ip, now, k);
    assert s2.calls == s.calls - {c};
    CallsPass(s2, ip, d, 3, now);
    PassesThen(s, end, Calls(ip, d, 3, now), ip, now, k, 3);
    Then(s, end, Calls(ip, d, 3, now), now);
  }

  /** Where two first calls of an address are under way, six packets can pass at one instant. */
  lemma OverlapPasses<Addr(!new)>(s: State<Addr>, ip: Addr, a: nat, b: nat, d: nat,
      now: int) returns (rest: seq<Step<Addr>>, n: nat)
    requires WellFormed(s) && IsFirst(s, a, ip) && IsFirst(s, b, ip) && a != b && d !in s.calls
    requires forall c :: c in s.calls && s.calls[c].phase.Made? ==> s.calls[c].phase.at <= now
    ensures Passes(s, rest, ip, now, n) && n >= 6 && (s.calls[a].phase.Missed? && s.calls[b].phase.Missed? ==> n == 8)
  {
    hide Passes;
    FreshPasses(s, ip, a, d, now);
    var s1 := Last(s, Fresh(ip, a, d, now));
    FreshPasses(s1, ip, b, d, now);
    var m := if s.calls[a].phase.Made? then 3 else 4;
    var k := if s.calls[b].phase.Made? then 3 else 4;
    PassesThen(s, Fresh(ip, a, d, now), Fresh(ip, b, d, now), ip, now, m, k);
    rest, n := Fresh(ip, a, d, now) + Fresh(ip, b, d, now), m + k;
  }

  /** Where a call has found an entry that has been collected, five packets can pass at one instant. */
  lemma StrayPasses<Addr(!new)>(s: State<Addr>, ip: Addr, c: nat, d: nat, now: int) returns (rest: seq<Step<Addr>>)
    requires WellFormed(s) && IsFound(s, c) && s.calls[c].ip == ip && d !in s.calls && ip !in s.table
    requires Pays(s.heap[s.calls[c].phase.ref], now) && forall b :: !IsFirst(s, b, ip)
    ensures Passes(s, rest, ip, now, 5)
  {
    hide Answers, Asked, Timely, Until, Clean, Last;
    var s1 := Next(s, Decide(c, now));
    var s2 := Next(s1, LookUp(d, ip));
    OneStep(s, Decide(c, now), now);
    OneStep(s1, LookUp(d, ip), now);
    assert Passes(s, [Decide(c, now)], ip, now, 1);
    assert forall b :: IsFirst(s1, b, ip) ==> IsFirst(s, b, ip);
    assert Passes(s1, [LookUp(d, ip)], ip, now, 0);
    PassesThen(s, [Decide(c, now)], [LookUp(d, ip)], ip, now, 1, 0);
    var start := [Decide(c, now)] + [LookUp(d, ip)];
    Then(s, [Decide(c, now)], [LookUp(d, ip)], now);
    var f := FreeCall(s2.calls.Keys);
    FreshPasses(s2, ip, d, f, now);
    rest := start + Fresh(ip, d, f, now);
    PassesThen(s, start, Fresh(ip, d, f, now), ip, now, 1, 4);
  }

  lemma FreeCall(used: set<nat>) returns (c: nat)
    ensures c !in used
  {
    c := 0;
    var left := used;
    while left != {}
      invariant forall d :: d in used && d !in left ==> d < c
      decreases left
    {
      var d :| d in left;
      left := left - {d};
      if c <= d {
        c := d + 1;
      }
    }
  }

  /** The sequential limiter never passes five packets of an address at one instant. */
  lemma NeverFive<Addr(!new)>(big: map<Addr, Entry>, ip: Addr, now: int, n: nat)
    requires Sane(big, now) && n >= 5
    ensures Verdicts(big, Copies(ip, now, n)) != Yes(n)
  {
    BurstExact(big, ip, now, n);
    if Verdicts(big, Copies(ip, now, n)) == Yes(n) {
      YesCounts(big, ip, now, n);
    }
  }

  lemma {:induction false} YesCounts<Addr(!new)>(big: map<Addr, Entry>, ip: Addr, now: int, n: nat)
    requires Verdicts(big, Copies(ip, now, n)) == Yes(n)
    ensures Allowed(big, Copies(ip, now, n), ip) == n
    decreases n
  {
    if n > 0 {
      var p := Packet(ip, now);
      assert Copies(ip, now, n)[1..] == Copies(ip, now, n - 1);
      var rest := Verdicts(Ratelimiter.Step(big, p), Copies(ip, now, n - 1));
      assert [Permits(big, ip, now)] + rest == Yes(n);
      assert rest == Yes(n)[1..] == Yes(n - 1);
      assert Permits(big, ip, now) == Yes(n)[0];
      YesCounts(Ratelimiter.Step(big, p), ip, now, n - 1);
    }
  }

  lemma NotFaithful<Addr(!new)>(s: State<Addr>, big: map<Addr, Entry>, rest: seq<Step<Addr>>, ip: Addr, now: int,
      n: nat)
    requires WellFormed(s) && Sane(big, now) && Passes(s, rest, ip, now, n) && n >= 5
    ensures !Faithful(s, big, now)
  {
    NeverFive(big, ip, now, n);
  }

  lemma OverlapBreaks<Addr(!new)>(s: State<Addr>, c: nat, ip: Addr, big: map<Addr, Entry>, t: int)
    requires WellFormed(s) && Stands(s, big, t) && !Undisturbing(s, LookUp(c, ip))
    ensures !Faithful(Next(s, LookUp(c, ip)), big, t)
  {
    hide Faithful, Passes;
    var s' := Next(s, LookUp(c, ip));
    var a :| IsFirst(s, a, ip);
    assert IsFirst(s', a, ip) && IsFirst(s', c, ip);
    forall d | d in s'.calls && s'.calls[d].phase.Made? ensures s'.calls[d].phase.at <= t {
      assert FirstOk(s, d, big, t);
    }
    var d := FreeCall(s'.calls.Keys);
    var rest, n := OverlapPasses(s', ip, a, c, d, t);
    NotFaithful(s', big, rest, ip, t, n);
  }

  lemma CollectionBreaks<Addr(!new)>(s: State<Addr>, ip: Addr, big: map<Addr, Entry>, now: int)
    requires WellFormed(s) && Stands(s, big, now) && !Undisturbing(s, Sweep(ip, now))
    ensures !Faithful(Next(s, Sweep(ip, now)), big, now)
  {
    hide Faithful, Passes;
    var s' := Next(s, Sweep(ip, now));
    var c :| IsFound(s, c) && s.calls[c].ip == ip;
    forall b ensures !IsFirst(s', b, ip) {
      assert IsFirst(s, b, ip) ==> FirstOk(s, b, big, now);
    }
    var d := FreeCall(s'.calls.Keys);
    assert s.heap[s.table[ip]] == big[ip] && 0 < big[ip].tokens;
    var rest := StrayPasses(s', ip, c, d, now);
    NotFaithful(s', big, rest, ip, now, 5);
  }

  /** A step is undisturbing if and only if afterwards every undisturbed continuation is
      answered as the sequential limiter would. */
  lemma StepExact<Addr(!new)>(s: State<Addr>, e: Step<Addr>, big: map<Addr, Entry>, t: int)
    requires WellFormed(s) && Stands(s, big, t) && t <= Instant(e, t)
    ensures Undisturbing(s, e) <==> Faithful(Next(s, e), NextBig(s, e, big), Instant(e, t))
  {
    hide Stands, Passes;
    if Undisturbing(s, e) {
      StepStands(s, e, big, t);
      forall rest | Timely(rest, Instant(e, t)) && Clean(Next(s, e), rest)
        ensures Answers(Next(s, e), rest) == Verdicts(NextBig(s, e, big), Asked(Next(s, e), rest))
      {
        CleanFrom(Next(s, e), rest, NextBig(s, e, big), Instant(e, t));
      }
    } else if e.LookUp? {
      OverlapBreaks(s, e.call, e.ip, big, t);
    } else {
      Later(s, big, t, e.now);
      CollectionBreaks(s, e.ip, big, e.now);
    }
  }

  /** At every point of the run, whatever follows undisturbed is answered rightly. */
  ghost predicate AlwaysFaithful<Addr(!new)>(s: State<Addr>, steps: seq<Step<Addr>>, big: map<Addr, Entry>, t: int)
    requires WellFormed(s)
    decreases |steps|
  {
    && Faithful(s, big, t)
    && (steps != [] ==> AlwaysFaithful(Next(s, steps[0]), steps[1..], NextBig(s, steps[0], big), Instant(steps[0], t)))
  }

  lemma {:induction false} RunExactFrom<Addr(!new)>(s: State<Addr>, steps: seq<Step<Addr>>, big: map<Addr, Entry>,
      t: int)
    requires WellFormed(s) && Stands(s, big, t) && Timely(steps, t)
    ensures Clean(s, steps) <==> AlwaysFaithful(s, steps, big, t)
    decreases |steps|
  {
    assert Faithful(s, big, t) by {
      forall rest | Timely(rest, t) && Clean(s, rest) ensures Answers(s, rest) == Verdicts(big, Asked(s, rest)) {
        CleanFrom(s, rest, big, t);
      }
    }
    if steps != [] {
      hide Faithful, Stands, Undisturbing;
      var e := steps[0];
      StepExact(s, e, big, t);
      if Undisturbing(s, e) {
        StepStands(s, e, big, t);
        RunExactFrom(Next(s, e), steps[1..], NextBig(s, e, big), Instant(e, t));
      }
    }
  }

  /** Calls are answered as the sequential limiter that never deletes answers them, at
      every point of a run and however it goes on, if and only if no two first calls
      of an address overlap and nothing is collected between a call's look-up and its charge. */
  lemma RunExact<Addr(!new)>(steps: seq<Step<Addr>>, t: int)
    requires Timely(steps, t)
    ensures Clean(Start(), steps) <==> AlwaysFaithful(Start(), steps, map[], t)
    ensures Clean(Start(), steps) ==> Answers(Start(), steps) == Verdicts(map[], Asked(Start(), steps))
  {
    RunExactFrom(Start(), steps, map[], t);
    if Clean(Start(), steps) {
      CleanFrom(Start(), steps, map[], t);
    }
  }

  // ----- the rate bound for every run

  /** What every reachable state satisfies, however calls overlap. */
  ghost predicate Sound<Addr(!new)>(s: State<Addr>, t: int)
    requires WellFormed(s)
  {
    && (forall i :: 0 <= i < |s.heap| ==> 0 < s.heap[i].tokens <= MAX_TOKENS && s.heap[i].lastTime <= t)
    && (forall c :: c in s.calls && s.calls[c].phase.Made? ==> s.calls[c].phase.at <= t)
    && (forall a, b :: a in s.table && b in s.table && s.table[a] == s.table[b] ==> a == b)
    && (forall c, a :: IsFound(s, c) && a in s.table && s.table[a] == s.calls[c].phase.ref ==> a == s.calls[c].ip)
  }

  lemma StepSound<Addr(!new)>(s: State<Addr>, e: Step<Addr>, t: int)
    requires WellFormed(s) && Sound(s, t) && t <= Instant(e, t)
    ensures Sound(Next(s, e), Instant(e, t))
  {
    match e {
      case LookUp(_, _) =>
      case Sweep(_, _) =>
      case Decide(c, now) => DecideSound(s, c, now);
      case Publish(c) => PublishSound(s, c, t);
    }
  }

  lemma DecideSound<Addr(!new)>(s: State<Addr>, c: nat, now: int)
    requires WellFormed(s) && Sound(s, now)
    ensures Sound(Next(s, Decide(c, now)), now)
  {
    var s' := Next(s, Decide(c, now));
    forall d, a | IsFound(s', d) && a in s'.table && s'.table[a] == s'.calls[d].phase.ref ensures a == s'.calls[d].ip {
      assert IsFound(s, d);
    }
  }

  lemma PublishSound<Addr(!new)>(s: State<Addr>, c: nat, t: int)
    requires WellFormed(s) && Sound(s, t)
    ensures Sound(Next(s, Publish(c)), t)
  {
    var s' := Next(s, Publish(c));
    forall d, a | IsFound(s', d) && a in s'.table && s'.table[a] == s'.calls[d].phase.ref ensures a == s'.calls[d].ip {
      assert IsFound(s, d);
    }
  }

  lemma {:induction false} RunSound<Addr(!new)>(s: State<Addr>, steps: seq<Step<Addr>>, t: int)
    requires WellFormed(s) && Sound(s, t) && Timely(steps, t)
    ensures Sound(Last(s, steps), Until(steps, t)) && t <= Until(steps, t)
    decreases |steps|
  {
    hide WellFormed, Sound, Next;
    if steps != [] {
      StepSound(s, steps[0], t);
      RunSound(Next(s, steps[0]), steps[1..], Instant(steps[0], t));
    }
  }

  /** The clock readings of new entries about to be published for an address. */
  ghost function Readings<Addr(!new)>(s: State<Addr>, ip: Addr): set<int> {
    set c | c in s.calls && s.calls[c].ip == ip && s.calls[c].phase.Made? :: s.calls[c].phase.at
  }

  ghost predicate IsLatest(times: set<int>, m: int) {
    m in times && forall x :: x in times ==> x <= m
  }

  lemma {:induction false} LatestExists(times: set<int>)
    requires times != {}
    ensures exists m :: IsLatest(times, m)
    decreases times
  {
    assert (forall x: int :: x !in times) ==> times == {};
    var x :| x in times;
    var rest := times - {x};
    if rest == {} {
      assert times == {x};
      assert IsLatest(times, x);
    } else {
      LatestExists(rest);
      var y :| IsLatest(rest, y);
      forall z | z in times ensures z <= x || z <= y {
        assert z != x ==> z in rest;
      }
      assert IsLatest(times, if x <= y then y else x);
    }
  }

  ghost function Latest(times: set<int>): (m: int)
    requires times != {}
    ensures IsLatest(times, m)
  {
    LatestExists(times);
    var m :| IsLatest(times, m);
    m
  }

  /** The tokens an address has left: those of its entry, or of the newest about to be
      published, or a full bucket. */
  ghost function Left<Addr(!new)>(s: State<Addr>, ip: Addr, t: int): int
    requires WellFormed(s)
  {
    if ip in s.table then LevelOf(s.heap[s.table[ip]], t)
    else if Readings(s, ip) == {} then MAX_TOKENS
    else LevelOf(Entry(Latest(Readings(s, ip)), MAX_TOKENS - PACKET_COST), t)
  }

  /** Another first call of the address is past its decision and not published, or its entry is in the table. */
  ghost predicate Rival<Addr(!new)>(s: State<Addr>, c: nat, ip: Addr) {
    ip in s.table || exists d :: d != c && d in s.calls && s.calls[d].ip == ip && s.calls[d].phase.Made?
  }

  ghost predicate Stray<Addr(!new)>(s: State<Addr>, c: nat) {
    IsFound(s, c) && !(s.calls[c].ip in s.table && s.table[s.calls[c].ip] == s.calls[c].phase.ref)
  }

  ghost predicate PassesOne<Addr(!new)>(s: State<Addr>, e: Step<Addr>, ip: Addr)
    requires WellFormed(s)
  {
    Decides(s, e) && s.calls[e.call].ip == ip && Decision(s, e)
  }

  /** The tokens an overlapping step can create: a packet's worth when a call that has
      a rival passes, or one that charges an entry no longer in the table; a full bucket
      when a call that has a rival publishes. */
  ghost function Surplus<Addr(!new)>(s: State<Addr>, e: Step<Addr>, ip: Addr): int
    requires WellFormed(s)
  {
    if !(e.Decide? || e.Publish?) || e.call !in s.calls || s.calls[e.call].ip != ip then 0
    else match s.calls[e.call].phase
      case Missed => if e.Decide? && Rival(s, e.call, ip) then PACKET_COST else 0
      case Made(_) => if e.Publish? && Rival(s, e.call, ip) then MAX_TOKENS else 0
      case Found(_) => if e.Decide? && Stray(s, e.call) then PACKET_COST else 0
  }

  ghost function Cost(passed: bool): int {
    if passed then PACKET_COST else 0
  }

  lemma LookUpLeft<Addr(!new)>(s: State<Addr>, c: nat, a: Addr, ip: Addr, t: int)
    requires WellFormed(s)
    ensures Left(Next(s, LookUp(c, a)), ip, t) == Left(s, ip, t)
  {
    var s' := Next(s, LookUp(c, a));
    if c !in s.calls {
      forall d | d in s.calls ensures s'.calls[d] == s.calls[d] {
      }
      assert Readings(s', ip) == Readings(s, ip);
    }
  }

  lemma SweepLeft<Addr(!new)>(s: State<Addr>, a: Addr, ip: Addr, now: int)
    requires WellFormed(s) && Sound(s, now)
    ensures Left(Next(s, Sweep(a, now)), ip, now) <= Left(s, ip, now)
  {
    assert Readings(Next(s, Sweep(a, now)), ip) == Readings(s, ip);
  }

  lemma MissLeft<Addr(!new)>(s: State<Addr>, c: nat, ip: Addr, now: int)
    requires WellFormed(s) && Sound(s, now) && c in s.calls && s.calls[c].phase.Missed?
    ensures Left(Next(s, Decide(c, now)), ip, now) + Cost(s.calls[c].ip == ip)
      <= Left(s, ip, now) + Surplus(s, Decide(c, now), ip)
  {
    var s' := Next(s, Decide(c, now));
    if s.calls[c].ip == ip {
      assert s'.calls[c].phase == Made(now) && now in Readings(s', ip);
      forall x | x in Readings(s', ip) ensures x <= now {
      }
      assert ip !in s.table ==> Left(s', ip, now) == MAX_TOKENS - PACKET_COST;
      if ip !in s.table && Readings(s, ip) != {} {
        var d :| d in s.calls && s.calls[d].ip == ip && s.calls[d].phase.Made?;
        assert Rival(s, c, ip);
      }
    } else {
      forall d | d in s.calls && d != c ensures s'.calls[d] == s.calls[d] {
      }
      assert Readings(s', ip) == Readings(s, ip);
    }
  }

  lemma ChargeLeft<Addr(!new)>(s: State<Addr>, c: nat, ip: Addr, now: int)
    requires WellFormed(s) && Sound(s, now) && IsFound(s, c)
    ensures var e := Decide(c, now);
      Left(Next(s, e), ip, now) + Cost(PassesOne(s, e, ip)) <= Left(s, ip, now) + Surplus(s, e, ip)
  {
    var s' := Next(s, Decide(c, now));
    forall d | d in s.calls && d != c ensures s'.calls[d] == s.calls[d] {
    }
    assert Readings(s', ip) == Readings(s, ip);
  }

  lemma PublishLeft<Addr(!new)>(s: State<Addr>, c: nat, ip: Addr, t: int)
    requires WellFormed(s) && Sound(s, t)
    ensures Left(Next(s, Publish(c)), ip, t) <= Left(s, ip, t) + Surplus(s, Publish(c), ip)
  {
    var s' := Next(s, Publish(c));
    if c in s.calls && s.calls[c].phase.Made? {
      forall d | d in s.calls && d != c ensures d in s'.calls && s'.calls[d] == s.calls[d] {
      }
      if s.calls[c].ip == ip {
        var at := s.calls[c].phase.at;
        assert at in Readings(s, ip);
        if !Rival(s, c, ip) {
          assert Readings(s, ip) == {at};
        }
      } else {
        assert Readings(s', ip) == Readings(s, ip);
      }
    }
  }

  lemma Trickle<Addr(!new)>(s: State<Addr>, ip: Addr, t: int, t': int)
    requires WellFormed(s) && Sound(s, t) && t <= t'
    ensures Sound(s, t') && 0 < Left(s, ip, t) <= Left(s, ip, t') <= MAX_TOKENS
    ensures Left(s, ip, t') <= Left(s, ip, t) + (t' - t)
  {
  }

  lemma StepLeft<Addr(!new)>(s: State<Addr>, e: Step<Addr>, ip: Addr, t: int)
    requires WellFormed(s) && Sound(s, t) && t <= Instant(e, t)
    ensures Left(Next(s, e), ip, Instant(e, t)) + Cost(PassesOne(s, e, ip))
         <= Left(s, ip, t) + (Instant(e, t) - t) + Surplus(s, e, ip)
  {
    hide Sound, Left;
    Trickle(s, ip, t, Instant(e, t));
    match e {
      case LookUp(c, a) => LookUpLeft(s, c, a, ip, t);
      case Publish(c) => PublishLeft(s, c, ip, t);
      case Sweep(a, now) => SweepLeft(s, a, ip, now);
      case Decide(c, now) =>
        if c in s.calls && s.calls[c].phase.Missed? {
          MissLeft(s, c, ip, now);
        } else if IsFound(s, c) {
          ChargeLeft(s, c, ip, now);
        }
    }
  }

  ghost function Passed<Addr(!new)>(s: State<Addr>, steps: seq<Step<Addr>>, ip: Addr): nat
    requires WellFormed(s)
    decreases |steps|
  {
    if steps == [] then 0 else
    (if PassesOne(s, steps[0], ip) then 1 else 0) + Passed(Next(s, steps[0]), steps[1..], ip)
  }

  ghost function Surpluses<Addr(!new)>(s: State<Addr>, steps: seq<Step<Addr>>, ip: Addr): int
    requires WellFormed(s)
    decreases |steps|
  {
    if steps == [] then 0 else Surplus(s, steps[0], ip) + Surpluses(Next(s, steps[0]), steps[1..], ip)
  }

  lemma {:induction false} PassedBound<Addr(!new)>(s: State<Addr>, steps: seq<Step<Addr>>, ip: Addr, t: int)
    requires WellFormed(s) && Sound(s, t) && Timely(steps, t)
    ensures Passed(s, steps, ip) * PACKET_COST + Left(Last(s, steps), ip, Until(steps, t))
         <= Left(s, ip, t) + (Until(steps, t) - t) + Surpluses(s, steps, ip)
    decreases |steps|
  {
    hide WellFormed, Sound, Next, Left, Surplus, PassesOne;
    if steps != [] {
      StepLeft(s, steps[0], ip, t);
      StepSound(s, steps[0], t);
      PassedBound(Next(s, steps[0]), steps[1..], ip, Instant(steps[0], t));
    }
  }

  /** In any window of any run, however calls overlap: the packets passed cost less than
      a full bucket, the time elapsed, and the surplus of the overlapping steps. */
  lemma OverlappingRateBound<Addr(!new)>(before: seq<Step<Addr>>, window: seq<Step<Addr>>, ip: Addr, t: int, from: int)
    requires Timely(before, t) && Until(before, t) <= from && Timely(window, from)
    ensures var s := Last(Start(), before);
      Passed(s, window, ip) * PACKET_COST < MAX_TOKENS + (Until(window, from) - from) + Surpluses(s, window, ip)
  {
    hide Left;
    RunSound(Start(), before, t);
    var s := Last(Start(), before);
    Trickle(s, ip, Until(before, t), from);
    PassedBound(s, window, ip, from);
    RunSound(s, window, from);
    Trickle(Last(s, window), ip, Until(window, from), Until(window, from));
  }

  lemma {:induction false} CleanNoSurplus<Addr(!new)>(s: State<Addr>, steps: seq<Step<Addr>>, big: map<Addr, Entry>,
      ip: Addr, t: int)
    requires WellFormed(s) && Stands(s, big, t) && Timely(steps, t) && Clean(s, steps)
    ensures Surpluses(s, steps, ip) == 0
    decreases |steps|
  {
    if steps != [] {
      assert Surplus(s, steps[0], ip) == 0 by {
        StepNoSurplus(s, steps[0], big, ip, t);
      }
      hide Stands, Undisturbing, Surplus;
      StepStands(s, steps[0], big, t);
      CleanNoSurplus(Next(s, steps[0]), steps[1..], NextBig(s, steps[0], big), ip, Instant(steps[0], t));
    }
  }

  lemma StepNoSurplus<Addr(!new)>(s: State<Addr>, e: Step<Addr>, big: map<Addr, Entry>, ip: Addr, t: int)
    requires WellFormed(s) && Stands(s, big, t)
    ensures Surplus(s, e, ip) == 0
  {
    if (e.Decide? || e.Publish?) && IsFirst(s, e.call, ip) {
      assert FirstOk(s, e.call, big, t);
      if Rival(s, e.call, ip) {
        var d :| d != e.call && d in s.calls && s.calls[d].ip == ip && s.calls[d].phase.Made?;
        assert IsFirst(s, d, ip);
        assert false;
      }
    }
  }

  /** In a clean run the bound is that of the sequential limiter. */
  lemma CleanRateBound<Addr(!new)>(before: seq<Step<Addr>>, window: seq<Step<Addr>>, ip: Addr, t: int, from: int)
    requires Timely(before, t) && Until(before, t) <= from && Timely(window, from) && Clean(Start(), before + window)
    ensures Passed(Last(Start(), before), window, ip) * PACKET_COST < MAX_TOKENS + (Until(window, from) - from)
  {
    assert Stands<Addr>(Start(), map[], t);
    hide WellFormed, Stands, Clean, Timely, Until, Passed, Last, Surpluses;
    Then(Start(), before, window, t);
    CleanFrom(Start(), before, map[], t);
    Later(Last(Start(), before), LastBig(Start(), before, map[]), Until(before, t), from);
    CleanNoSurplus(Last(Start(), before), window, LastBig(Start(), before, map[]), ip, from);
    OverlappingRateBound(before, window, ip, t, from);
  }

  // ----- two runs that are not clean

  /** Two calls look up a new address before either publishes: eight packets pass at one instant. */
  lemma TwoFirstCalls<Addr(!new)>(ip: Addr, t: int) returns (steps: seq<Step<Addr>>)
    ensures Timely(steps, t) && Until(steps, t) == t && Answers(Start(), steps) == Yes(8)
    ensures Asked(Start(), steps) == Copies(ip, t, 8)
    ensures 8 * PACKET_COST > MAX_TOKENS + (Until(steps, t) - t)
  {
    var looks: seq<Step<Addr>> := [LookUp(0, ip)] + [LookUp(1, ip)];
    var s := Next(Next(Start(), LookUp(0, ip)), LookUp(1, ip));
    OneStep(Start(), LookUp(0, ip), t);
    OneStep(Next(Start(), LookUp(0, ip)), LookUp(1, ip), t);
    Then(Start(), [LookUp(0, ip)], [LookUp(1, ip)], t);
    var rest, n := OverlapPasses(s, ip, 0, 1, 2, t);
    Then(Start(), looks, rest, t);
    steps := looks + rest;
  }

  /** An entry is collected between a call's look-up and its charge: five packets pass at
      one instant, where the sequential limiter passes four. */
  lemma CollectedBetween<Addr(!new)>(ip: Addr, t: int) returns (before: seq<Step<Addr>>, steps: seq<Step<Addr>>)
    ensures Timely(before + steps, t) && Answers(Start(), before) == Yes(1) && Asked(Start(), before) == [Packet(ip, t)]
    ensures var s := Last(Start(), before); var now := t + 2 * GARBAGE_COLLECT_TIME;
      && Answers(s, steps) == Yes(5) && Asked(s, steps) == Copies(ip, now, 5)
      && Allowed(Final(map[], [Packet(ip, t)]), Copies(ip, now, 5), ip) == 4
  {
    hide Answers, Asked, Timely, Clean, Last, Undisturbing;
    var now := t + 2 * GARBAGE_COLLECT_TIME;
    before := [LookUp(0, ip)] + [Decide(0, t)] + [Publish(0)];
    FirstCall(ip, t);
    var s := State([Entry(t, MAX_TOKENS - PACKET_COST)], map[ip := 0], map[]);
    var s' := Next(Next(s, LookUp(1, ip)), Sweep(ip, now));
    OneStep(s, LookUp(1, ip), t);
    OneStep(Next(s, LookUp(1, ip)), Sweep(ip, now), t);
    Then(s, [LookUp(1, ip)], [Sweep(ip, now)], t);
    assert s'.calls == map[1 := Call(ip, Found(0))] && s'.table == map[];
    var rest := StrayPasses(s', ip, 1, 2, now);
    Then(s, [LookUp(1, ip)] + [Sweep(ip, now)], rest, t);
    steps := [LookUp(1, ip)] + [Sweep(ip, now)] + rest;
    Then(Start(), before, steps, t);
    assert Final(map[], [Packet(ip, t)]) == Ratelimiter.Step(map[], Packet(ip, t));
    BurstExact(Ratelimiter.Step(map[], Packet(ip, t)), ip, now, 5);
  }

  lemma FirstCall<Addr(!new)>(ip: Addr, t: int)
    ensures var steps := [LookUp(0, ip)] + [Decide(0, t)] + [Publish(0)];
      && Passes(Start(), steps, ip, t, 1)
      && Last(Start(), steps) == State([Entry(t, MAX_TOKENS - PACKET_COST)], map[ip := 0], map[])
  {
    var s: State<Addr> := Start();
    var s1 := Next(s, LookUp(0, ip));
    OneStep(s, LookUp(0, ip), t);
    OneStep(s1, Decide(0, t), t);
    OneStep(Next(s1, Decide(0, t)), Publish(0), t);
    Then(s, [LookUp(0, ip)], [Decide(0, t)], t);
    Then(s, [LookUp(0, ip)] + [Decide(0, t)], [Publish(0)], t);
  }
}
