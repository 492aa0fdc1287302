/** The scanner's address iterator: one generator per prefix, one address of each
    prefix per batch, until all are used up and everything is reshuffled. */
module IpIterator {
  import opened Bitwise
  import opened Lcg

  const TWO_32 := 0x1_0000_0000
  const MAPPED := 0xffff_0000_0000 // the block ::ffff:0:0/96, where IPv4 addresses are mapped

  datatype Addr = V4(n: nat) | V6(n: nat)

  function As16(ip: Addr): nat {
    match ip
    case V4(n) => MAPPED + n
    case V6(n) => n
  }

  function Unmap(x: nat): Addr {
    if MAPPED <= x < MAPPED + TWO_32 then V4(x - MAPPED) else V6(x)
  }

  function AddIP(ip: Addr, num: nat): Addr {
    Unmap(As16(ip) + num)
  }

  /** A prefix with its host bits zero: 2^k addresses from `start` on, all of one family. */
  ghost predicate IsPrefix(start: Addr, k: nat) {
    && start.n % Pow2(k) == 0
    && (if start.V4? then start.n + Pow2(k) <= TWO_32 else start.n + Pow2(k) <= MAPPED || MAPPED + TWO_32 <= start.n)
  }

  /** Within a prefix, addition stays in the family and counts from the start. */
  lemma AddWithin(start: Addr, k: nat, num: nat)
    requires IsPrefix(start, k) && num < Pow2(k)
    ensures AddIP(start, num) == start.(n := start.n + num)
  {
  }

  datatype IpRange = IpRange(start: Addr, bits: nat, index: nat, lcg: Generator) {
    function Size(): nat {
      Pow2(bits)
    }

    /** The n-th address this range gives in an epoch. */
    function AddressAt(n: nat): Addr {
      AddIP(start, Residue(Size(), lcg.multiplier, lcg.increment, n))
    }

    ghost predicate Sound() {
      && lcg.modulus == Size() && index <= Size() && lcg.multiplier < Size() && lcg.increment < Size()
      && CheckHullDobell(Size(), lcg.multiplier, lcg.increment)
    }
  }

  /** The next address of a range, if it has any left. */
  function Given(r: IpRange): seq<Addr> {
    if r.index < r.Size() then [r.AddressAt(r.index + 1)] else []
  }

  /** The addresses of one batch: the next of every range that has any left. */
  function Batch(rs: seq<IpRange>): seq<Addr> {
    if rs == [] then [] else
    Batch(rs[..|rs| - 1]) + Given(rs[|rs| - 1])
  }

  function Stepped(r: IpRange): IpRange {
    if r.index < r.Size() then r.(index := r.index + 1) else r
  }

  lemma SteppedSound(r: IpRange)
    requires r.Sound()
    ensures Stepped(r).Sound()
  {
  }

  lemma {:induction false} BatchEmpty(rs: seq<IpRange>)
    ensures Batch(rs) == [] <==> forall i :: 0 <= i < |rs| ==> rs[i].index >= rs[i].Size()
  {
    if rs != [] {
      BatchEmpty(rs[..|rs| - 1]);
    }
  }

  class IpGenerator {
    var ranges: seq<IpRange>

    ghost function Generators(): set<object>
      reads this
    {
      set i | 0 <= i < |ranges| :: ranges[i].lcg
    }

    /** Each range has a generator of its own, which stands where the index says. */
    ghost predicate Valid()
      reads this, Generators()
    {
      && (forall i :: 0 <= i < |ranges| ==> ranges[i].Sound() && InStep(ranges[i]))
      && (forall i, j :: 0 <= i < j < |ranges| ==> ranges[i].lcg != ranges[j].lcg)
    }

    static ghost predicate InStep(r: IpRange)
      reads r.lcg
    {
      r.lcg.current == Residue(r.Size(), r.lcg.multiplier, r.lcg.increment, r.index)
    }

    /** One pass over the ranges. */
    method Pass() returns (results: seq<Addr>)
      requires Valid()
      modifies this, Generators()
      ensures Valid() && results == Batch(old(ranges))
      ensures |ranges| == |old(ranges)| && forall i :: 0 <= i < |ranges| ==> ranges[i] == Stepped(old(ranges)[i])
    {
      hide IpRange.Sound, IpRange.AddressAt, IpGenerator.InStep, IpRange.Size;
      results := [];
      ghost var rs := ranges;
      for i := 0 to |ranges|
        invariant |ranges| == |rs| && results == Batch(rs[..i])
        invariant forall j :: 0 <= j < i ==> ranges[j] == Stepped(rs[j])
        invariant forall j :: i <= j < |rs| ==> ranges[j] == rs[j]
        invariant forall j :: 0 <= j < |rs| ==> ranges[j].lcg == rs[j].lcg
        invariant forall j :: 0 <= j < |rs| ==> ranges[j].Sound() && InStep(ranges[j])
      {
        assert rs[..i + 1][..i] == rs[..i];
        var r := ranges[i];
        if r.index < r.Size() {
          var address := Draw(r);
          results := results + [address];
          SteppedSound(r);
          ranges := ranges[i := r.(index := r.index + 1)];
        }
      }
      assert rs[..|rs|] == rs;
    }

    /** The next address of a range. */
    static method Draw(r: IpRange) returns (address: Addr)
      requires r.Sound() && InStep(r) && r.index < r.Size()
      modifies r.lcg
      ensures address == r.AddressAt(r.index + 1)
      ensures InStep(r.(index := r.index + 1))
    {
      hide CheckHullDobell, Residue;
      ResidueNext(r.Size(), r.lcg.multiplier, r.lcg.increment, r.index);
      var next := r.lcg.Next();
      address := AddIP(r.start, next);
    }

    /** Draws for a generator of this size, one of which passes the check. */
    static predicate GoodDraws(size: nat, draws: seq<(nat, nat)>) {
      && size > 0 && (forall i :: 0 <= i < |draws| ==> draws[i].0 < size && draws[i].1 < size)
      && exists i :: 0 <= i < |draws| && CheckHullDobell(size, draws[i].0, draws[i].1)
    }

    /** Every range starts over, with a new generator. */
    method Reshuffle(draws: seq<seq<(nat, nat)>>)
      requires Valid() && |draws| == |ranges| && forall i :: 0 <= i < |ranges| ==> GoodDraws(ranges[i].Size(), draws[i])
      modifies this
      ensures Valid() && fresh(Generators()) && |ranges| == |old(ranges)|
      ensures forall i :: 0 <= i < |ranges| ==>
        ranges[i].start == old(ranges)[i].start && ranges[i].bits == old(ranges)[i].bits && ranges[i].index == 0
    {
      hide CheckHullDobell, Residue;
      ghost var rs := ranges;
      for i := 0 to |ranges|
        invariant |ranges| == |rs| && forall j :: i <= j < |rs| ==> ranges[j] == rs[j]
        invariant forall j :: 0 <= j < i ==>
          ranges[j].start == rs[j].start && ranges[j].bits == rs[j].bits && ranges[j].index == 0
        invariant forall j :: 0 <= j < i ==> ranges[j].Sound() && InStep(ranges[j]) && fresh(ranges[j].lcg)
        invariant forall j, l :: 0 <= j < l < i ==> ranges[j].lcg != ranges[l].lcg
      {
        var r := ranges[i];
        var lcg := new Generator(r.Size(), draws[i]);
        ResidueZero(lcg.modulus, lcg.multiplier, lcg.increment);
        ranges := ranges[i := r.(index := 0, lcg := lcg)];
      }
    }

    /** The next batch. When nothing is left, all ranges start over; `begun` is the
        state the batch was taken from. */
    method NextBatch(draws: seq<seq<(nat, nat)>>) returns (results: seq<Addr>, ok: bool, ghost begun: seq<IpRange>)
      requires Valid() && |draws| == |ranges| && forall i :: 0 <= i < |ranges| ==> GoodDraws(ranges[i].Size(), draws[i])
      modifies this, Generators()
      ensures Valid() && (ok <==> old(ranges) != [])
      ensures |begun| == |ranges| == |old(ranges)| && (forall i :: 0 <= i < |begun| ==> begun[i].Sound())
      ensures ok ==> forall i :: 0 <= i < |ranges| ==> ranges[i] == Stepped(begun[i])
      ensures results == Batch(begun) && (ok ==> results != [])
      ensures if Batch(old(ranges)) != [] then begun == old(ranges)
              else forall i :: 0 <= i < |begun| ==>
                begun[i].start == old(ranges)[i].start && begun[i].bits == old(ranges)[i].bits && begun[i].index == 0
    {
      hide Batch, CheckHullDobell, Residue;
      begun := ranges;
      BatchEmpty(ranges);
      results := Pass();
      if results == [] {
        var okFlag := false;
        for i := 0 to |ranges|
          invariant okFlag <==> exists j :: 0 <= j < i && ranges[j].index > 0
        {
          if ranges[i].index > 0 {
            okFlag := true;
          }
        }
        assert okFlag <==> ranges != [] by {
          if ranges != [] {
            assert ranges[0] == Stepped(begun[0]) && begun[0].index >= begun[0].Size();
          }
        }
        Reshuffle(draws);
        begun := ranges;
        BatchEmpty(ranges);
        if !okFlag {
          return [], false, begun;
        }
        results := Pass();
      }
      ok := true;
    }

    /** The batch after n batches of an epoch, with some range not used up. */
    method EpochBatch(ghost rs: seq<IpRange>, ghost n: nat, draws: seq<seq<(nat, nat)>>) returns (batch: seq<Addr>)
      requires Valid() && (forall i :: 0 <= i < |rs| ==> rs[i].index == 0) && ranges == After(rs, n) && n < Longest(rs)
      requires |draws| == |rs| && forall i :: 0 <= i < |rs| ==> GoodDraws(rs[i].Size(), draws[i])
      modifies this, Generators()
      ensures Valid() && batch == Batch(After(rs, n)) && ranges == After(rs, n + 1) && Generators() == old(Generators())
    {
      hide CheckHullDobell, AddIP, Residue, GoodDraws, Batch;
      LiveUntil(rs, n);
      AfterKeeps(rs, n);
      var ok;
      ghost var begun;
      batch, ok, begun := NextBatch(draws);
      SameGenerators(ranges, begun);
      assert ranges == After(rs, n + 1);
    }

    /** A whole epoch: batches until nothing is left, and the one after, for which all
        ranges have started over. */
    method Epoch(draws: seq<seq<(nat, nat)>>) returns (batches: seq<seq<Addr>>, next: seq<Addr>,
        ghost begun: seq<IpRange>)
      requires Valid() && ranges != [] && forall i :: 0 <= i < |ranges| ==> ranges[i].index == 0
      requires |draws| == |ranges| && forall i :: 0 <= i < |ranges| ==> GoodDraws(ranges[i].Size(), draws[i])
      modifies this, Generators()
      ensures Valid() && IsEpoch(old(ranges), batches)
      ensures |begun| == |old(ranges)| && next == Batch(begun) != []
      ensures forall i :: 0 <= i < |begun| ==> begun[i].Sound() && Restarted(begun[i], old(ranges)[i])
    {
      hide CheckHullDobell, AddIP, Residue, GoodDraws, Batch, After, Valid, Longest, IsEpoch;
      batches := [];
      ghost var rs := ranges;
      AfterNone(rs);
      for n := 0 to Longest(ranges)
        invariant Valid() && Generators() == old(Generators()) && ranges == After(rs, n) && |batches| == n
        invariant forall k :: 0 <= k < n ==> batches[k] == Batch(After(rs, k))
      {
        var batch := EpochBatch(rs, n, draws);
        batches := batches + [batch];
      }
      LiveUntil(rs, Longest(rs));
      AfterKeeps(rs, Longest(rs));
      BatchesPlaced(rs, batches);
      var ok;
      next, ok, begun := NextBatch(draws);
    }
  }

  // ----- an epoch

  /** The ranges after n batches. */
  function After(rs: seq<IpRange>, n: nat): (r: seq<IpRange>)
    ensures |r| == |rs|
  {
    if n == 0 then rs else seq(|rs|, i requires 0 <= i < |rs| => Stepped(After(rs, n - 1)[i]))
  }

  /** After n batches of an epoch each range has given n addresses, or all it has. */
  lemma {:induction false} AfterIndex(rs: seq<IpRange>, n: nat, i: nat)
    requires i < |rs| && rs[i].index == 0
    ensures After(rs, n)[i] == rs[i].(index := if n < rs[i].Size() then n else rs[i].Size())
  {
    if n > 0 {
      AfterIndex(rs, n - 1, i);
    }
  }

  lemma AfterNone(rs: seq<IpRange>)
    ensures After(rs, 0) == rs
  {
  }

  lemma AfterKeeps(rs: seq<IpRange>, n: nat)
    requires forall i :: 0 <= i < |rs| ==> rs[i].index == 0
    ensures forall i :: 0 <= i < |rs| ==> After(rs, n)[i].(index := 0) == rs[i]
  {
    forall i | 0 <= i < |rs| ensures After(rs, n)[i].(index := 0) == rs[i] {
      AfterIndex(rs, n, i);
    }
  }

  /** The size of the longest range. */
  function Longest(rs: seq<IpRange>): nat {
    if rs == [] then 0 else
    var m := Longest(rs[..|rs| - 1]);
    if m < rs[|rs| - 1].Size() then rs[|rs| - 1].Size() else m
  }

  lemma {:induction false} LongestExceeds(rs: seq<IpRange>, n: nat)
    ensures n < Longest(rs) <==> exists i :: 0 <= i < |rs| && n < rs[i].Size()
  {
    if rs != [] {
      var k := |rs| - 1;
      LongestExceeds(rs[..k], n);
      if n < Longest(rs[..k]) {
        var i :| 0 <= i < k && n < rs[..k][i].Size();
        assert n < rs[i].Size();
      }
    }
  }

  /** Batches are not empty until the longest range is used up. */
  lemma LiveUntil(rs: seq<IpRange>, n: nat)
    requires forall i :: 0 <= i < |rs| ==> rs[i].index == 0
    ensures n < Longest(rs) <==> Batch(After(rs, n)) != []
  {
    LongestExceeds(rs, n);
    BatchEmpty(After(rs, n));
    forall i | 0 <= i < |rs| ensures After(rs, n)[i].index < After(rs, n)[i].Size() <==> n < rs[i].Size() {
      AfterIndex(rs, n, i);
    }
  }

  /** How many of the first i ranges give an address in batch n. */
  function Place(rs: seq<IpRange>, n: nat, i: nat): nat
    requires i <= |rs|
  {
    if i == 0 then 0 else Place(rs, n, i - 1) + if n < rs[i - 1].Size() then 1 else 0
  }

  /** Batch n, from zero, holds the next address of every range longer than n, in order. */
  ghost predicate IsEpoch(rs: seq<IpRange>, batches: seq<seq<Addr>>) {
    && |batches| == Longest(rs)
    && (forall n :: 0 <= n < |batches| ==> |batches[n]| == Place(rs, n, |rs|))
    && (forall n: nat, i: nat :: n < |batches| && i < |rs| && n < rs[i].Size() ==> GivesNext(rs, batches, i, n))
  }

  ghost predicate GivesNext(rs: seq<IpRange>, batches: seq<seq<Addr>>, i: nat, n: nat)
    requires i < |rs|
  {
    Gives(rs, batches, i, n, rs[i].AddressAt(n + 1))
  }

  /** Range i gives this address in batch n. */
  ghost predicate Gives(rs: seq<IpRange>, batches: seq<seq<Addr>>, i: nat, n: nat, x: Addr)
    requires i < |rs|
  {
    && n < |batches| && n < rs[i].Size()
    && Place(rs, n, i) < |batches[n]| && batches[n][Place(rs, n, i)] == x
  }

  lemma BatchSnoc(rs: seq<IpRange>, n: nat, k: nat)
    requires (forall i :: 0 <= i < |rs| ==> rs[i].index == 0) && k < |rs|
    ensures Batch(After(rs, n)[..k + 1])
         == Batch(After(rs, n)[..k]) + if n < rs[k].Size() then [rs[k].AddressAt(n + 1)] else []
  {
    hide AddIP, Residue;
    AfterIndex(rs, n, k);
    var qs := After(rs, n);
    hide After;
    assert qs[..k + 1][..k] == qs[..k] && qs[..k + 1][k] == qs[k];
  }

  lemma {:induction false} BatchLength(rs: seq<IpRange>, n: nat, k: nat)
    requires (forall i :: 0 <= i < |rs| ==> rs[i].index == 0) && k <= |rs|
    ensures |Batch(After(rs, n)[..k])| == Place(rs, n, k)
    decreases k
  {
    if k > 0 {
      hide After, IpRange.AddressAt;
      BatchLength(rs, n, k - 1);
      BatchSnoc(rs, n, k - 1);
    }
  }

  lemma {:induction false} BatchPlaced(rs: seq<IpRange>, n: nat, k: nat, i: nat)
    requires (forall i :: 0 <= i < |rs| ==> rs[i].index == 0) && i < k <= |rs| && n < rs[i].Size()
    ensures Place(rs, n, i) < |Batch(After(rs, n)[..k])|
    ensures Batch(After(rs, n)[..k])[Place(rs, n, i)] == rs[i].AddressAt(n + 1)
    decreases k
  {
    hide After, AddIP, Residue, Batch;
    BatchSnoc(rs, n, k - 1);
    if i < k - 1 {
      BatchPlaced(rs, n, k - 1, i);
    } else {
      BatchLength(rs, n, i);
    }
  }

  lemma BatchesPlaced(rs: seq<IpRange>, batches: seq<seq<Addr>>)
    requires (forall i :: 0 <= i < |rs| ==> rs[i].index == 0) && |batches| == Longest(rs)
    requires forall n :: 0 <= n < |batches| ==> batches[n] == Batch(After(rs, n))
    ensures IsEpoch(rs, batches)
  {
    hide Batch, After, IpRange.AddressAt;
    forall n | 0 <= n < |batches|
      ensures |batches[n]| == Place(rs, n, |rs|)
      ensures forall i: nat :: i < |rs| && n < rs[i].Size() ==> GivesNext(rs, batches, i, n)
    {
      BatchLength(rs, n, |rs|);
      assert After(rs, n)[..|rs|] == After(rs, n);
      forall i: nat | i < |rs| && n < rs[i].Size() ensures GivesNext(rs, batches, i, n) {
        BatchPlaced(rs, n, |rs|, i);
      }
    }
  }

  ghost predicate Restarted(r: IpRange, was: IpRange) {
    r.start == was.start && r.bits == was.bits && r.index == 0
  }

  /** A range's generator gives every residue: of the ranges that pass the check all but
      those of two addresses with multiplier zero. */
  ghost predicate Covering(r: IpRange) {
    r.bits == 1 ==> r.lcg.multiplier == 1
  }

  lemma CoveringExact(r: IpRange)
    requires r.Sound()
    ensures Covering(r) <==> FullPeriod(r.Size(), r.lcg.multiplier, r.lcg.increment)
  {
    var a, c := r.lcg.multiplier, r.lcg.increment;
    if r.bits == 0 {
      SizeOne(a, c);
    } else if r.bits == 1 {
      assert Pow2(1) == 2;
      SizeTwo(a, c);
    } else {
      HullDobell(r.bits, a, c);
    }
  }

  /** The n-th address of a prefix. */
  function Nth(start: Addr, num: nat): Addr {
    start.(n := start.n + num)
  }

  /** In an epoch a covering range gives each address of its prefix in exactly one batch. */
  lemma EpochCovers(rs: seq<IpRange>, batches: seq<seq<Addr>>, i: nat, num: nat) returns (n: nat)
    requires IsEpoch(rs, batches) && i < |rs| && rs[i].Sound() && IsPrefix(rs[i].start, rs[i].bits)
    requires Covering(rs[i]) && num < rs[i].Size()
    ensures Gives(rs, batches, i, n, Nth(rs[i].start, num))
    ensures forall n' :: Gives(rs, batches, i, n', Nth(rs[i].start, num)) ==> n' == n
  {
    hide Residue, AddIP, FullPeriod, CheckHullDobell, Place, Longest;
    var r := rs[i];
    var m, a, c := r.Size(), r.lcg.multiplier, r.lcg.increment;
    CoveringExact(r);
    var v := Visit(m, a, c, num);
    n := v - 1;
    AddWithin(r.start, r.bits, num);
    LongestExceeds(rs, n);
    assert GivesNext(rs, batches, i, n);
    forall n': nat | Gives(rs, batches, i, n', Nth(r.start, num)) ensures n' == n {
      assert GivesNext(rs, batches, i, n');
      if n' != n {
        VisitOnce(m, a, c, n + 1, n' + 1);
        AddWithin(r.start, r.bits, Residue(m, a, c, n' + 1));
      }
    }
  }

  lemma AlwaysOne()
    ensures Residue(2, 0, 1, 1) == Residue(2, 0, 1, 2) == 1
  {
  }

  /** A range that is not covering gives the second address of its prefix twice, the first never. */
  lemma EpochMisses(rs: seq<IpRange>, batches: seq<seq<Addr>>, i: nat)
    requires IsEpoch(rs, batches) && i < |rs| && rs[i].Sound() && IsPrefix(rs[i].start, rs[i].bits) && !Covering(rs[i])
    ensures forall n :: !Gives(rs, batches, i, n, Nth(rs[i].start, 0))
    ensures Gives(rs, batches, i, 0, Nth(rs[i].start, 1)) && Gives(rs, batches, i, 1, Nth(rs[i].start, 1))
  {
    hide AddIP, CheckHullDobell, Place, Longest;
    var r := rs[i];
    assert Pow2(1) == 2;
    SizeTwo(r.lcg.multiplier, r.lcg.increment);
    AddWithin(r.start, r.bits, 1);
    AlwaysOne();
    forall n: nat | n < 2 ensures Gives(rs, batches, i, n, Nth(r.start, 1)) {
      hide Residue;
      LongestExceeds(rs, n);
      assert GivesNext(rs, batches, i, n);
    }
    forall n: nat ensures !Gives(rs, batches, i, n, Nth(r.start, 0)) {
      assert n < 2 ==> Gives(rs, batches, i, n, Nth(r.start, 1));
    }
  }

  lemma SameGenerators(rs: seq<IpRange>, qs: seq<IpRange>)
    requires |rs| == |qs| && forall i :: 0 <= i < |rs| ==> rs[i].lcg == qs[i].lcg
    ensures (set i | 0 <= i < |rs| :: rs[i].lcg) == (set i | 0 <= i < |qs| :: qs[i].lcg)
  {
  }

  lemma VisitOnce(m: nat, a: nat, c: nat, i: nat, j: nat)
    requires m > 0 && FullPeriod(m, a, c) && 0 < i <= m && 0 < j <= m && i != j
    ensures Residue(m, a, c, i) != Residue(m, a, c, j) && Residue(m, a, c, j) < m
  {
    hide Residue;
    ResiduesAt(m, a, c, m, i - 1);
    ResiduesAt(m, a, c, m, j - 1);
    var s := Residues(m, a, c, m);
    assert s[i - 1] != s[j - 1];
  }
}
