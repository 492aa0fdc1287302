/** The handshake rate limiter: one token bucket per address, with idle buckets
    garbage-collected. Instants and durations are nanoseconds. */
module Ratelimiter {
  const GARBAGE_COLLECT_TIME := 1_000_000_000
  const PACKET_COST := 50_000_000 // twenty packets per second
  const MAX_TOKENS := 250_000_000 // five packets
  const MAX_INT64 := 0x7fff_ffff_ffff_ffff

  datatype Entry = Entry(lastTime: int, tokens: int)

  class Limiter<Addr(==)> {
    var table: map<Addr, Entry>

    constructor ()
      ensures table == map[]
    {
      table := map[];
    }

    /** The entries whose own clock reading is more than the collection time past their last use go. */
    method Cleanup(now: int, readings: map<Addr, int>) returns (empty: bool)
      modifies this
      ensures table == Kept(old(table), now, readings) && (empty <==> table == map[])
    {
      var left := table.Keys;
      while left != {}
        invariant left <= old(table).Keys
        invariant table.Keys <= old(table).Keys
        invariant forall key :: key in old(table) ==>
          (key in table <==> key in left || !Idle(old(table)[key], Reading(key, now, readings)))
        invariant forall key :: key in table ==> table[key] == old(table)[key]
        decreases left
      {
        var key :| key in left;
        left := left - {key};
        if Reading(key, now, readings) - table[key].lastTime > GARBAGE_COLLECT_TIME {
          table := table - {key};
        }
      }
      empty := |table| == 0;
    }

    method Allow(ip: Addr, now: int) returns (ok: bool)
      modifies this
      ensures table == old(table)[ip := After(old(table), ip, now)]
      ensures ok <==> Permits(old(table), ip, now)
    {
      if ip !in table {
        table := table[ip := Entry(now, MAX_TOKENS - PACKET_COST)];
        return true;
      }
      var tokens := table[ip].tokens + (now - table[ip].lastTime);
      if tokens > MAX_TOKENS {
        tokens := MAX_TOKENS;
      }
      ok := tokens > PACKET_COST;
      if ok {
        tokens := tokens - PACKET_COST;
      }
      table := table[ip := Entry(now, tokens)];
    }

    method Run(events: seq<Event<Addr>>) returns (verdicts: seq<bool>)
      modifies this
      ensures verdicts == Verdicts(old(table), events) && table == Final(old(table), events)
    {
      verdicts := [];
      for i := 0 to |events|
        invariant verdicts + Verdicts(table, events[i..]) == Verdicts(old(table), events)
        invariant Final(table, events[i..]) == Final(old(table), events)
      {
        assert events[i..][1..] == events[i + 1..];
        match events[i] {
          case Packet(ip, now) =>
            var ok := Allow(ip, now);
            verdicts := verdicts + [ok];
          case Collection(now, readings) =>
            var _ := Cleanup(now, readings);
        }
      }
    }
  }

  // ----- what one event does

  /** A packet arrives, or the collector runs: it reads the clock once per key, and ends at `now`. */
  datatype Event<Addr> = Packet(ip: Addr, now: int) | Collection(now: int, readings: map<Addr, int>)

  function Reading<Addr>(key: Addr, now: int, readings: map<Addr, int>): int {
    if key in readings then readings[key] else now
  }

  predicate Idle(e: Entry, now: int) {
    now - e.lastTime > GARBAGE_COLLECT_TIME
  }

  ghost function Kept<Addr>(table: map<Addr, Entry>, now: int, readings: map<Addr, int>): map<Addr, Entry> {
    map key | key in table && !Idle(table[key], Reading(key, now, readings)) :: table[key]
  }

  /** The tokens of an entry at an instant. */
  ghost function LevelOf(e: Entry, now: int): int {
    if e.tokens + (now - e.lastTime) > MAX_TOKENS then MAX_TOKENS else e.tokens + (now - e.lastTime)
  }

  /** The tokens an address has at an instant; one without an entry has a full bucket. */
  ghost function Level<Addr>(table: map<Addr, Entry>, ip: Addr, now: int): int {
    if ip in table then LevelOf(table[ip], now) else MAX_TOKENS
  }

  ghost predicate Permits<Addr>(table: map<Addr, Entry>, ip: Addr, now: int) {
    Level(table, ip, now) > PACKET_COST
  }

  ghost function After<Addr>(table: map<Addr, Entry>, ip: Addr, now: int): Entry {
    Entry(now, Level(table, ip, now) - if Permits(table, ip, now) then PACKET_COST else 0)
  }

  ghost function Step<Addr>(table: map<Addr, Entry>, e: Event<Addr>): map<Addr, Entry> {
    match e
    case Packet(ip, now) => table[ip := After(table, ip, now)]
    case Collection(now, readings) => Kept(table, now, readings)
  }

  ghost function Final<Addr>(table: map<Addr, Entry>, events: seq<Event<Addr>>): map<Addr, Entry>
    decreases |events|
  {
    if events == [] then table else Final(Step(table, events[0]), events[1..])
  }

  ghost function Verdicts<Addr>(table: map<Addr, Entry>, events: seq<Event<Addr>>): seq<bool>
    decreases |events|
  {
    if events == [] then [] else
    (if events[0].Packet? then [Permits(table, events[0].ip, events[0].now)] else [])
    + Verdicts(Step(table, events[0]), events[1..])
  }

  // ----- runs under a clock that never goes back

  ghost predicate Ordered<Addr>(events: seq<Event<Addr>>, t: int) {
    events != [] ==>
      && t <= events[0].now
      && (events[0].Collection? ==>
            forall key :: key in events[0].readings ==> t <= events[0].readings[key] <= events[0].now)
      && Ordered(events[1..], events[0].now)
  }

  ghost function End<Addr>(events: seq<Event<Addr>>, t: int): int {
    if events == [] then t else End(events[1..], events[0].now)
  }

  /** What every reachable table satisfies: no bucket empty or above full, none last used in the future. */
  ghost predicate Sane<Addr>(table: map<Addr, Entry>, t: int) {
    forall ip :: ip in table ==> 0 < table[ip].tokens <= MAX_TOKENS && table[ip].lastTime <= t
  }

  lemma StepSane<Addr>(table: map<Addr, Entry>, e: Event<Addr>, t: int)
    requires Sane(table, t) && t <= e.now
    ensures Sane(Step(table, e), e.now)
  {
  }

  lemma {:induction false} FinalSane<Addr>(table: map<Addr, Entry>, events: seq<Event<Addr>>, t: int)
    requires Sane(table, t) && Ordered(events, t)
    ensures Sane(Final(table, events), End(events, t)) && t <= End(events, t)
    decreases |events|
  {
    if events != [] {
      StepSane(table, events[0], t);
      FinalSane(Step(table, events[0]), events[1..], events[0].now);
    }
  }

  /** The 64-bit sum in Allow does not overflow while the bucket was used in the last 292 years. */
  lemma TokensFit<Addr>(events: seq<Event<Addr>>, ip: Addr, t: int, now: int)
    requires Ordered(events, t) && End(events, t) <= now
    requires var table := Final(map[], events); ip in table && now - table[ip].lastTime <= MAX_INT64 - MAX_TOKENS
    ensures var e := Final(map[], events)[ip]; 0 <= e.tokens <= e.tokens + (now - e.lastTime) <= MAX_INT64
  {
    FinalSane(map[], events, t);
  }

  // ----- garbage collection is invisible

  ghost function Packets<Addr>(events: seq<Event<Addr>>): seq<Event<Addr>> {
    if events == [] then [] else
    (if events[0].Packet? then [events[0]] else []) + Packets(events[1..])
  }

  /** The two tables agree, but for full buckets that `small` has dropped. */
  ghost predicate Alike<Addr>(small: map<Addr, Entry>, big: map<Addr, Entry>, t: int) {
    && Sane(big, t)
    && (forall ip :: ip in small ==> ip in big && small[ip] == big[ip])
    && (forall ip :: ip in big && ip !in small ==> big[ip].tokens + (t - big[ip].lastTime) >= MAX_TOKENS)
  }

  lemma StepAlike<Addr>(small: map<Addr, Entry>, big: map<Addr, Entry>, e: Event<Addr>, t: int)
    requires Alike(small, big, t) && Ordered([e], t)
    ensures e.Packet? ==> Alike(Step(small, e), Step(big, e), e.now)
    ensures e.Packet? ==> Permits(small, e.ip, e.now) == Permits(big, e.ip, e.now)
    ensures e.Collection? ==> Alike(Step(small, e), big, e.now)
  {
  }

  lemma {:induction false} GarbageCollectionInvisibleFrom<Addr>(small: map<Addr, Entry>, big: map<Addr, Entry>,
      events: seq<Event<Addr>>, t: int)
    requires Alike(small, big, t) && Ordered(events, t)
    ensures Verdicts(small, events) == Verdicts(big, Packets(events))
    decreases |events|
  {
    if events != [] {
      var e, rest := events[0], events[1..];
      assert [e][1..] == [];
      StepAlike(small, big, e, t);
      if e.Packet? {
        GarbageCollectionInvisibleFrom(Step(small, e), Step(big, e), rest, e.now);
        assert ([e] + Packets(rest))[1..] == Packets(rest);
      } else {
        GarbageCollectionInvisibleFrom(Step(small, e), big, rest, e.now);
        assert Packets(events) == Packets(rest);
        assert Verdicts(small, events) == Verdicts(Step(small, e), rest);
      }
    }
  }

  /** Collecting at any times answers every packet as a limiter that never deletes. */
  lemma GarbageCollectionInvisible<Addr>(events: seq<Event<Addr>>, t: int)
    requires Ordered(events, t)
    ensures Verdicts(map[], events) == Verdicts(map[], Packets(events))
  {
    GarbageCollectionInvisibleFrom(map[], map[], events, t);
  }

  // ----- the rate bound

  /** How many packets of an address a run lets through. */
  ghost function Allowed<Addr>(table: map<Addr, Entry>, events: seq<Event<Addr>>, ip: Addr): nat
    decreases |events|
  {
    if events == [] then 0 else
    var e := events[0];
    (if e.Packet? && e.ip == ip && Permits(table, ip, e.now) then 1 else 0) + Allowed(Step(table, e), events[1..], ip)
  }

  /** One event: what it takes from the level is paid by what it lets through and by time. */
  lemma StepLevel<Addr>(table: map<Addr, Entry>, e: Event<Addr>, ip: Addr, t: int)
    requires Sane(table, t) && Ordered([e], t)
    ensures var passed := e.Packet? && e.ip == ip && Permits(table, ip, e.now);
      Level(Step(table, e), ip, e.now) + (if passed then PACKET_COST else 0) <= Level(table, ip, t) + (e.now - t)
  {
  }

  lemma {:induction false} AllowedBound<Addr>(table: map<Addr, Entry>, events: seq<Event<Addr>>, ip: Addr, t: int)
    requires Sane(table, t) && Ordered(events, t)
    ensures Allowed(table, events, ip) * PACKET_COST + Level(Final(table, events), ip, End(events, t))
         <= Level(table, ip, t) + (End(events, t) - t)
    decreases |events|
  {
    if events != [] {
      assert [events[0]][1..] == [];
      StepLevel(table, events[0], ip, t);
      StepSane(table, events[0], t);
      AllowedBound(Step(table, events[0]), events[1..], ip, events[0].now);
    }
  }

  /** In any window [s, End(window, s)] of any run from the start, at most a burst
      plus what trickles in during the window is let through: never quite that much. */
  lemma RateBound<Addr>(before: seq<Event<Addr>>, window: seq<Event<Addr>>, ip: Addr, t: int, s: int)
    requires Ordered(before, t) && End(before, t) <= s && Ordered(window, s)
    ensures Allowed(Final(map[], before), window, ip) * PACKET_COST < MAX_TOKENS + (End(window, s) - s)
  {
    FinalSane(map[], before, t);
    var table := Final(map[], before);
    AllowedBound(table, window, ip, s);
    FinalSane(table, window, s);
  }

  /** Every packet of the address comes a packet's cost or more after the one before. */
  ghost predicate Spread<Addr>(events: seq<Event<Addr>>, ip: Addr, since: int) {
    events != [] ==>
      var mine := events[0].Packet? && events[0].ip == ip;
      && (mine ==> events[0].now - since >= PACKET_COST)
      && Spread(events[1..], ip, if mine then events[0].now else since)
  }

  ghost function CountOf<Addr>(events: seq<Event<Addr>>, ip: Addr): nat {
    if events == [] then 0 else (if events[0].Packet? && events[0].ip == ip then 1 else 0) + CountOf(events[1..], ip)
  }

  /** An address that keeps to the rate is never refused, whatever others do. */
  lemma {:induction false} SpreadPasses<Addr>(table: map<Addr, Entry>, events: seq<Event<Addr>>, ip: Addr, since: int,
      t: int)
    requires Sane(table, t) && Ordered(events, t) && Spread(events, ip, since)
    requires ip in table ==> table[ip].lastTime <= since
    ensures Allowed(table, events, ip) == CountOf(events, ip)
    decreases |events|
  {
    if events != [] {
      var e := events[0];
      StepSane(table, e, t);
      SpreadPasses(Step(table, e), events[1..], ip, if e.Packet? && e.ip == ip then e.now else since, e.now);
    }
  }

  // ----- bursts

  ghost function Copies<Addr>(ip: Addr, now: int, n: nat): seq<Event<Addr>> {
    seq(n, _ => Packet(ip, now))
  }

  /** How many packets a level pays for: each must leave something over. */
  ghost function Burst(level: int): int {
    (level - 1) / PACKET_COST
  }

  ghost function Least(a: int, b: int): int {
    if a <= b then a else b
  }

  /** Of n packets at one instant exactly as many pass as the level pays for, whatever the table. */
  lemma {:induction false} BurstExact<Addr>(table: map<Addr, Entry>, ip: Addr, now: int, n: nat)
    requires Sane(table, now)
    ensures Allowed(table, Copies(ip, now, n), ip) == Least(n, Burst(Level(table, ip, now)))
    decreases n
  {
    if n > 0 {
      var p := Packet(ip, now);
      assert Copies(ip, now, n)[1..] == Copies(ip, now, n - 1);
      StepSane(table, p, now);
      BurstExact(Step(table, p), ip, now, n - 1);
      var level := Level(table, ip, now);
      if level <= PACKET_COST {
        assert Burst(level) == 0;
      } else {
        assert Level(Step(table, p), ip, now) == level - PACKET_COST;
        assert Burst(level - PACKET_COST) == Burst(level) - 1;
      }
    }
  }

  /** The burst is four packets, not the five the bucket holds: an address not seen
      before always gets four through, and a fifth if and only if time has passed. */
  lemma FifthNeedsTime<Addr>(table: map<Addr, Entry>, ip: Addr, t1: int, t2: int, t3: int, t4: int, t5: int)
    requires ip !in table && t1 <= t2 <= t3 <= t4 <= t5
    ensures Verdicts(table, [Packet(ip, t1), Packet(ip, t2), Packet(ip, t3), Packet(ip, t4), Packet(ip, t5)])
         == [true, true, true, true, t5 > t1]
  {
    var p1, p2, p3, p4, p5 := Packet(ip, t1), Packet(ip, t2), Packet(ip, t3), Packet(ip, t4), Packet(ip, t5);
    var s1 := Step(table, p1);
    var s2 := Step(s1, p2);
    var s3 := Step(s2, p3);
    var s4 := Step(s3, p4);
    assert s4[ip].lastTime == t4 && s4[ip].tokens >= PACKET_COST;
    assert Verdicts(s4, [p5]) == [t5 > t1];
    assert Verdicts(s3, [p4, p5]) == [true] + Verdicts(s4, [p5]);
    assert Verdicts(s2, [p3, p4, p5]) == [true] + Verdicts(s3, [p4, p5]);
    assert Verdicts(s1, [p2, p3, p4, p5]) == [true] + Verdicts(s2, [p3, p4, p5]);
  }

  /** Five packets at one instant: the fifth is refused. */
  lemma BurstOfFour<Addr>(ip: Addr, t: int)
    ensures var p := Packet(ip, t); Verdicts(map[], [p, p, p, p, p]) == [true, true, true, true, false]
    ensures forall n: nat :: Allowed(map[], Copies(ip, t, n), ip) == Least(n, 4)
  {
    FifthNeedsTime(map[], ip, t, t, t, t, t);
    forall n: nat ensures Allowed(map[], Copies(ip, t, n), ip) == Least(n, 4) {
      BurstExact(map[], ip, t, n);
    }
  }
}
