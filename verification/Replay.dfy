/** The anti-replay filter: a ring of bitmap blocks, after RFC 6479. Shifts and
    masks by a power of two are written as division and remainder. */
module Replay {
  import opened Bitwise

  const BLOCK_BITS := 64
  const RING_BLOCKS := 128
  const WINDOW_SIZE := (RING_BLOCKS - 1) * BLOCK_BITS

  /** What the filter promises: below the limit, not accepted before, and not
      more than a window behind any counter accepted so far. */
  ghost predicate Acceptable(accepted: set<uint64>, counter: uint64, limit: uint64) {
    && counter < limit && counter !in accepted
    && forall a :: a in accepted ==> a - counter <= WINDOW_SIZE
  }

  /** Block b of the counters is one the ring stands for when `last` is the greatest. */
  ghost predicate InRing(b: nat, last: nat) {
    last / BLOCK_BITS - RING_BLOCKS < b <= last / BLOCK_BITS
  }

  /** The block among the 128 after `current` that shares b's slot. */
  lemma SameSlot(b: nat, current: nat) returns (c: nat)
    requires b > current
    ensures current < c <= b && c <= current + RING_BLOCKS && c % RING_BLOCKS == b % RING_BLOCKS
  {
    c := current + 1 + (b - current - 1) % RING_BLOCKS;
  }

  lemma SetBit(word: uint64, bit: nat)
    requires bit < BLOCK_BITS
    ensures Or(word, Pow2(bit)) < 0x1_0000_0000_0000_0000
    ensures Or(word, Pow2(bit)) == word <==> Bit(word, bit)
    ensures forall k: nat :: Bit(Or(word, Pow2(bit)), k) <==> Bit(word, k) || k == bit
  {
    Pow2Of64();
    Pow2Monotone(bit, 64);
    OrStaysSmall(word, Pow2(bit), 64);
    SetBitChanges(word, bit);
    forall k: nat
      ensures Bit(Or(word, Pow2(bit)), k) <==> Bit(word, k) || k == bit
    {
      BitOfOr(word, Pow2(bit), k);
      BitOfPow2(bit, k);
    }
  }

  class Filter {
    var last: uint64
    const ring: array<uint64>
    ghost var accepted: set<uint64>

    ghost predicate Greatest()
      reads this
    {
      && (forall a :: a in accepted ==> a <= last)
      && (if accepted == {} then last == 0 else last in accepted)
    }

    /** The blocks the ring stands for show exactly the accepted counters; the
        other slots may hold anything. */
    ghost predicate Shows(b: nat)
      requires ring.Length == RING_BLOCKS
      reads this, ring
    {
      forall k :: 0 <= k < BLOCK_BITS ==> (Bit(ring[b % RING_BLOCKS], k) <==> BLOCK_BITS * b + k in accepted)
    }

    ghost predicate Valid()
      reads this, ring
    {
      && ring.Length == RING_BLOCKS && Greatest()
      && forall b: nat :: InRing(b, last) ==> Shows(b)
    }

    constructor ()
      ensures Valid() && accepted == {} && fresh(ring)
    {
      last := 0;
      accepted := {};
      ring := new uint64[RING_BLOCKS](_ => 0);
      new;
      forall k: nat { ZeroHasNoBit(k); }
    }

    /** Empties the filter, whatever the ring holds. */
    method Reset()
      requires ring.Length == RING_BLOCKS
      modifies this, ring
      ensures Valid() && accepted == {}
      ensures forall i :: 0 < i < RING_BLOCKS ==> ring[i] == old(ring[i])
    {
      last := 0;
      ring[0] := 0;
      accepted := {};
      forall k: nat { ZeroHasNoBit(k); }
    }

    /** Slides the window up to a greater counter, wiping the blocks it moves onto. */
    method Advance(counter: uint64)
      requires Valid() && counter > last
      modifies this`last, ring
      ensures last == counter && accepted == old(accepted)
      ensures forall b: nat :: InRing(b, last) ==> Shows(b)
    {
      var current := last / BLOCK_BITS;
      var diff := counter / BLOCK_BITS - current;
      if diff > RING_BLOCKS {
        diff := RING_BLOCKS;
      }
      var i := current + 1;
      while i <= current + diff
        invariant current < i <= current + diff + 1
        invariant forall b: nat :: current < b < i ==> ring[b % RING_BLOCKS] == 0
        invariant forall b: nat :: i - RING_BLOCKS <= b <= current ==>
          ring[b % RING_BLOCKS] == old(ring[b % RING_BLOCKS])
      {
        ring[i % RING_BLOCKS] := 0;
        i := i + 1;
      }
      last := counter;
      forall b: nat | InRing(b, counter)
        ensures Shows(b)
      {
        if b <= current {
          assert old(Shows(b));
        } else {
          var c := SameSlot(b, current);
          assert ring[c % RING_BLOCKS] == 0;
          forall k | 0 <= k < BLOCK_BITS { ZeroHasNoBit(k); }
        }
      }
    }

    /** Sets the counter's bit in its block, and tells whether it was clear. */
    method Mark(counter: uint64) returns (changed: bool)
      requires ring.Length == RING_BLOCKS && InRing(counter / BLOCK_BITS, last)
      requires forall b: nat :: InRing(b, last) ==> Shows(b)
      modifies ring, this`accepted
      ensures changed <==> counter !in old(accepted)
      ensures accepted == old(accepted) + {counter}
      ensures forall b: nat :: InRing(b, last) ==> Shows(b)
    {
      var block, bit := counter / BLOCK_BITS, counter % BLOCK_BITS;
      assert Shows(block);
      var was := ring[block % RING_BLOCKS];
      var now := Or(was, Pow2(bit));
      SetBit(was, bit);
      ring[block % RING_BLOCKS] := now;
      accepted := accepted + {counter};
      changed := was != now;
      forall b: nat | InRing(b, last)
        ensures Shows(b)
      {
        assert old(Shows(b));
        if b == block {
          assert counter == BLOCK_BITS * b + bit;
        }
      }
    }

    method ValidateCounter(counter: uint64, limit: uint64) returns (ok: bool)
      requires Valid()
      modifies this, ring
      ensures Valid()
      ensures ok <==> Acceptable(old(accepted), counter, limit)
      ensures accepted == if ok then old(accepted) + {counter} else old(accepted)
    {
      if counter >= limit {
        return false;
      }
      if counter > last {
        Advance(counter);
      } else if last - counter > WINDOW_SIZE {
        return false;
      }
      ok := Mark(counter);
    }
  }

  datatype Call = Call(counter: uint64, limit: uint64)

  /** The counters accepted after a run of calls, by the promise alone. */
  ghost function Accepted(calls: seq<Call>): set<uint64> {
    if calls == [] then {} else
    var init, c := calls[..|calls| - 1], calls[|calls| - 1];
    if Acceptable(Accepted(init), c.counter, c.limit) then Accepted(init) + {c.counter} else Accepted(init)
  }

  /** After a reset over any ring content, every call of a run is answered as promised. */
  method Run(f: Filter, calls: seq<Call>) returns (verdicts: seq<bool>)
    requires f.ring.Length == RING_BLOCKS
    modifies f, f.ring
    ensures |verdicts| == |calls|
    ensures forall i :: 0 <= i < |calls| ==>
      (verdicts[i] <==> Acceptable(Accepted(calls[..i]), calls[i].counter, calls[i].limit))
  {
    f.Reset();
    verdicts := [];
    for n := 0 to |calls|
      invariant f.Valid() && f.accepted == Accepted(calls[..n]) && |verdicts| == n
      invariant forall i :: 0 <= i < n ==>
        (verdicts[i] <==> Acceptable(Accepted(calls[..i]), calls[i].counter, calls[i].limit))
    {
      var ok := f.ValidateCounter(calls[n].counter, calls[n].limit);
      assert calls[..n + 1][..n] == calls[..n];
      verdicts := verdicts + [ok];
    }
  }

  /** No counter is accepted twice in a run. */
  lemma {:induction false} AcceptedOnce(calls: seq<Call>, i: nat, j: nat)
    requires i < j < |calls| && calls[i].counter == calls[j].counter
    requires Acceptable(Accepted(calls[..i]), calls[i].counter, calls[i].limit)
    ensures !Acceptable(Accepted(calls[..j]), calls[j].counter, calls[j].limit)
    decreases j
  {
    assert calls[..i + 1][..i] == calls[..i];
    StaysAccepted(calls, i + 1, j, calls[i].counter);
  }

  lemma {:induction false} StaysAccepted(calls: seq<Call>, i: nat, j: nat, c: uint64)
    requires i <= j <= |calls| && c in Accepted(calls[..i])
    ensures c in Accepted(calls[..j])
  {
    if i < j {
      StaysAccepted(calls, i, j - 1, c);
      assert calls[..j][..j - 1] == calls[..j - 1];
    }
  }
}
