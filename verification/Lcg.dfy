/** The linear congruential generator behind the address iterator, and when it
    visits every residue: the Hull-Dobell theorem for powers of two. */
module Lcg {
  import opened Arith
  import opened Bitwise

  // ----- the check

  /** Euclid's algorithm. */
  function Gcd(x: nat, y: nat): nat
    decreases y
  {
    if y == 0 then x else Gcd(y, Remainder(x, y))
  }

  function Remainder(x: nat, y: nat): (r: nat)
    requires y > 0
    ensures r < y
  {
    x % y
  }

  lemma Division(x: nat, y: nat) returns (q: nat)
    requires y > 0
    ensures x == y * q + Remainder(x, y)
  {
    q := x / y;
  }

  predicate CheckHullDobell(modulus: nat, multiplier: nat, increment: nat) {
    Gcd(increment, modulus) == 1 && (modulus % 4 == 0 ==> (multiplier - 1) % 4 == 0)
  }

  class Generator {
    const modulus: nat
    const multiplier: nat
    const increment: nat
    var current: nat

    ghost predicate Valid()
      reads this
    {
      current < modulus
    }

    /** Takes the first pair of draws that passes the check: some pair does. */
    constructor (size: nat, draws: seq<(nat, nat)>)
      requires size > 0 && forall i :: 0 <= i < |draws| ==> draws[i].0 < size && draws[i].1 < size
      requires exists i :: 0 <= i < |draws| && CheckHullDobell(size, draws[i].0, draws[i].1)
      ensures Valid() && modulus == size && current == 0 && multiplier < size && increment < size
      ensures CheckHullDobell(size, multiplier, increment)
    {
      var i := 0;
      while !CheckHullDobell(size, draws[i].0, draws[i].1)
        invariant 0 <= i < |draws| && exists j :: i <= j < |draws| && CheckHullDobell(size, draws[j].0, draws[j].1)
        decreases |draws| - i
      {
        i := i + 1;
      }
      modulus, multiplier, increment, current := size, draws[i].0, draws[i].1, 0;
    }

    /** The next residue; there always is one, though the code provides for none. */
    method Next() returns (next: int)
      requires Valid()
      modifies this
      ensures Valid() && next == current == (multiplier * old(current) + increment) % modulus
    {
      if current == modulus {
        return -1;
      }
      next := (multiplier * current + increment) % modulus;
      current := next;
    }
  }

  // ----- the sequence

  /** The n-th residue, counting the start as number zero. */
  function Residue(m: nat, a: nat, c: nat, n: nat): nat
    requires m > 0
  {
    if n == 0 then 0 else (a * Residue(m, a, c, n - 1) + c) % m
  }

  /** 1 + a + a^2 + ... , n terms. */
  function Geometric(a: nat, n: nat): nat {
    if n == 0 then 0 else a * Geometric(a, n - 1) + 1
  }

  lemma ModStep(m: nat, a: nat, c: nat, y: nat)
    requires m > 0
    ensures (a * (y % m) + c) % m == (a * y + c) % m
  {
    var q := y / m;
    assert a * y + c == (a * q) * m + (a * (y % m) + c) by {
      assert y == m * q + y % m;
      assert a * (m * q) == (a * q) * m;
    }
    AddMultiple(a * (y % m) + c, m, a * q);
  }

  lemma AddMultiple(x: nat, m: nat, k: nat)
    requires m > 0
    ensures (k * m + x) % m == x % m
  {
    DivideUnique(k * m + x, m, k + x / m, x % m);
  }

  lemma FactorOut(a: nat, c: nat, g: nat)
    ensures a * (c * g) + c == c * (a * g + 1)
  {
    assert a * (c * g) == c * (a * g);
  }

  /** Without reducing, the n-th number is c times the geometric sum. */
  lemma {:induction false} ResidueIsSum(m: nat, a: nat, c: nat, n: nat)
    requires m > 0
    ensures Residue(m, a, c, n) == (c * Geometric(a, n)) % m
  {
    if n > 0 {
      ResidueIsSum(m, a, c, n - 1);
      var g := Geometric(a, n - 1);
      ModStep(m, a, c, c * g);
      FactorOut(a, c, g);
    }
  }

  /** Geometric sums add up, with a cross term. */
  lemma {:induction false} GeometricAdd(a: nat, m: nat, n: nat)
    requires a > 0
    ensures Geometric(a, m + n) == Geometric(a, m) + Geometric(a, n) + (a - 1) * (Geometric(a, m) * Geometric(a, n))
  {
    if m == 0 {
      assert Geometric(a, m) * Geometric(a, n) == 0;
    } else {
      GeometricAdd(a, m - 1, n);
      CrossTerm(a, Geometric(a, m - 1), Geometric(a, n));
    }
  }

  lemma CrossTerm(a: nat, x: nat, y: nat)
    requires a > 0
    ensures a * (x + y + (a - 1) * (x * y)) + 1 == (a * x + 1) + y + (a - 1) * ((a * x + 1) * y)
  {
    var d := a - 1;
    assert (a * x + 1) * y == a * (x * y) + y;
    assert d * (a * (x * y) + y) == d * (a * (x * y)) + d * y;
    assert a * (x + y + d * (x * y)) == a * x + a * y + a * (d * (x * y));
    assert a * (d * (x * y)) == d * (a * (x * y));
    assert a * y == d * y + y;
  }

  // ----- divisibility by powers of two

  /** 2^k divides x. */
  predicate Divides(k: nat, x: nat) {
    k == 0 || (x % 2 == 0 && Divides(k - 1, x / 2))
  }

  lemma {:induction false} DividesIsMod(k: nat, x: nat)
    ensures Divides(k, x) <==> x % Pow2(k) == 0
  {
    if k > 0 {
      hide Divides;
      DividesIsMod(k - 1, x / 2);
      DividesNext(k, x);
      HalfMod(x, Pow2(k - 1));
    }
  }

  lemma DividesNext(k: nat, x: nat)
    requires k > 0
    ensures Divides(k, x) <==> x % 2 == 0 && Divides(k - 1, x / 2)
  {
  }

  lemma HalfMod(x: nat, p: nat)
    requires p > 0
    ensures x % (2 * p) == 0 <==> x % 2 == 0 && x / 2 % p == 0
  {
    var h, b := x / 2, x % 2;
    var q := Division(h, p);
    var r := Remainder(h, p);
    assert q * (2 * p) == 2 * (p * q);
    DivideUnique(x, 2 * p, q, 2 * r + b);
    assert h / p == q && h % p == r by { DivideUnique(h, p, q, r); }
  }

  lemma OddProduct(x: nat, o: nat)
    requires o % 2 == 1
    ensures (x * o) % 2 == x % 2
    ensures x % 2 == 0 ==> x * o / 2 == x / 2 * o
  {
    TimesOdd(x, o / 2);
    Parity(x * o, x * (o / 2), x);
    if x % 2 == 0 {
      TimesDouble(x / 2, o);
      Parity(x * o, x / 2 * o, 0);
    }
  }

  lemma TimesOdd(x: nat, h: nat)
    ensures x * (2 * h + 1) == 2 * (x * h) + x
  {
  }

  lemma TimesDouble(y: nat, o: nat)
    ensures (2 * y) * o == 2 * (y * o)
  {
  }

  lemma Parity(z: nat, w: nat, x: nat)
    requires z == 2 * w + x
    ensures z % 2 == x % 2 && (x == 0 ==> z / 2 == w)
  {
  }

  /** An odd factor does not matter. */
  lemma {:induction false} OddFactor(k: nat, x: nat, o: nat)
    requires o % 2 == 1
    ensures Divides(k, x * o) <==> Divides(k, x)
    decreases k
  {
    if k > 0 {
      OddProduct(x, o);
      if x % 2 == 0 {
        OddFactor(k - 1, x / 2, o);
      }
    }
  }

  // ----- distinct residues

  lemma {:induction false} GeometricParity(a: nat, n: nat)
    requires a % 2 == 1
    ensures Geometric(a, n) % 2 == n % 2
  {
    if n > 0 {
      var g := Geometric(a, n - 1);
      GeometricParity(a, n - 1);
      OddProduct(g, a);
      NextParity(g * a, g, n);
    }
  }

  lemma NextParity(w: nat, g: nat, n: nat)
    requires n > 0 && w % 2 == g % 2 == (n - 1) % 2
    ensures (w + 1) % 2 == n % 2
  {
  }

  lemma DoubleSum(a: nat, n: nat) returns (o: nat)
    requires a % 4 == 1
    ensures o % 2 == 1 && Geometric(a, n + n) == 2 * (Geometric(a, n) * o)
  {
    var g, e := Geometric(a, n), a / 4;
    GeometricAdd(a, n, n);
    o := 1 + 2 * (e * g);
    assert a - 1 == 4 * e;
    assert 4 * e * (g * g) == 2 * (g * (2 * (e * g)));
    assert g * o == g + g * (2 * (e * g));
  }

  /** For a multiplier that is 1 modulo 4, exactly the sums of 2^k terms and their
      multiples are divisible by 2^k. */
  lemma {:induction false} GeometricDivides(k: nat, a: nat, n: nat)
    requires a % 4 == 1
    ensures Divides(k, Geometric(a, n)) <==> Divides(k, n)
    decreases k
  {
    if k > 0 {
      GeometricParity(a, n);
      if n % 2 == 0 {
        var h := n / 2;
        var o := DoubleSum(a, h);
        OddFactor(k - 1, Geometric(a, h), o);
        GeometricDivides(k - 1, a, h);
      }
    }
  }

  lemma Regroup(e: nat, x: nat, y: nat)
    ensures 4 * e * (x * y) == y * (2 * (2 * (e * x)))
  {
    assert 4 * e * (x * y) == 4 * (e * (x * y));
    assert e * (x * y) == y * (e * x);
    assert y * (2 * (2 * (e * x))) == 4 * (y * (e * x));
  }

  lemma OddCofactor(e: nat, x: nat, y: nat) returns (o: nat)
    ensures o % 2 == 1 && y + 4 * e * (x * y) == y * o
  {
    var z := 2 * (e * x);
    o := 1 + 2 * z;
    Regroup(e, x, y);
    assert y * o == y + y * (2 * z);
  }

  lemma Substitute(d: nat, e: nat, w: nat)
    requires d == 4 * e
    ensures d * w == 4 * e * w
  {
  }

  lemma SumDifference(a: nat, i: nat, n: nat) returns (o: nat)
    requires a % 4 == 1
    ensures o % 2 == 1 && Geometric(a, i + n) == Geometric(a, i) + Geometric(a, n) * o
  {
    hide Geometric;
    var x, y, e := Geometric(a, i), Geometric(a, n), a / 4;
    GeometricAdd(a, i, n);
    Substitute(a - 1, e, x * y);
    o := OddCofactor(e, x, y);
  }

  lemma EqualRemainders(x: nat, d: nat, m: nat)
    requires m > 0 && (x + d) % m == x % m
    ensures d % m == 0
  {
    var q, q' := x / m, (x + d) / m;
    assert x == m * q + x % m && x + d == m * q' + x % m;
    assert d == m * q' - m * q == (q' - q) * m;
    DivideUnique(d, m, q' - q, 0);
  }

  lemma TwoOddFactors(k: nat, y: nat, o: nat, c: nat)
    requires c % 2 == 1 && o % 2 == 1
    ensures Divides(k, y * o * c) <==> Divides(k, y)
  {
    var w := y * o;
    OddFactor(k, y, o);
    OddFactor(k, w, c);
  }

  lemma TooSmall(k: nat, n: nat)
    requires 0 < n < Pow2(k)
    ensures !Divides(k, n)
  {
    DividesIsMod(k, n);
    DivideUnique(n, Pow2(k), 0, n);
  }

  lemma NoMultiple(k: nat, a: nat, n: nat, o: nat, c: nat)
    requires a % 4 == 1 && c % 2 == 1 && o % 2 == 1 && 0 < n < Pow2(k)
    ensures (Geometric(a, n) * o * c) % Pow2(k) != 0
  {
    hide Geometric, Divides, Pow2;
    DividesIsMod(k, Geometric(a, n) * o * c);
    TwoOddFactors(k, Geometric(a, n), o, c);
    GeometricDivides(k, a, n);
    TooSmall(k, n);
  }

  lemma ProductsDiffer(m: nat, c: nat, x: nat, w: nat)
    requires m > 0 && (w * c) % m != 0
    ensures (c * x) % m != (c * (x + w)) % m
  {
    assert c * (x + w) == c * x + w * c;
    if (c * x + w * c) % m == (c * x) % m {
      EqualRemainders(c * x, w * c, m);
    }
  }

  /** Two residues less than a period apart differ. */
  lemma ResiduesDiffer(k: nat, a: nat, c: nat, i: nat, n: nat)
    requires a % 4 == 1 && c % 2 == 1 && 0 < n < Pow2(k)
    ensures Residue(Pow2(k), a, c, i) != Residue(Pow2(k), a, c, i + n)
  {
    ResidueIsSum(Pow2(k), a, c, i);
    ResidueIsSum(Pow2(k), a, c, i + n);
    var o := SumDifference(a, i, n);
    NoMultiple(k, a, n, o, c);
    ProductsDiffer(Pow2(k), c, Geometric(a, i), Geometric(a, n) * o);
  }

  // ----- all residues

  /** Residues number 1 to n, as the generator gives them. */
  function Residues(m: nat, a: nat, c: nat, n: nat): (s: seq<nat>)
    requires m > 0
    ensures |s| == n
  {
    if n == 0 then [] else Residues(m, a, c, n - 1) + [Residue(m, a, c, n)]
  }

  lemma {:induction false} ResiduesAt(m: nat, a: nat, c: nat, n: nat, i: nat)
    requires m > 0 && i < n
    ensures Residues(m, a, c, n)[i] == Residue(m, a, c, i + 1) < m
  {
    if i < n - 1 {
      ResiduesAt(m, a, c, n - 1, i);
    }
  }

  /** A run of n numbers below n, each once and so all of them. */
  ghost predicate IsPermutation(s: seq<nat>) {
    && (forall i :: 0 <= i < |s| ==> s[i] < |s|)
    && (forall i, j :: 0 <= i < j < |s| ==> s[i] != s[j])
    && (forall r :: 0 <= r < |s| ==> r in s)
  }

  lemma {:induction false} Pigeonhole(s: seq<nat>, m: nat, r: nat)
    requires |s| >= m && (forall i :: 0 <= i < |s| ==> s[i] < m) && (forall i, j :: 0 <= i < j < |s| ==> s[i] != s[j])
    requires r < m
    ensures r in s
    decreases m
  {
    if r !in s {
      // s fits below m - 1 once the greatest value is renamed to r
      var s' := seq(|s|, i requires 0 <= i < |s| => if s[i] == m - 1 then r else s[i]);
      Squeeze(s', m - 1);
    }
  }

  /** More distinct numbers than there is room for do not exist. */
  lemma {:induction false} Squeeze(s: seq<nat>, m: nat)
    requires (forall i :: 0 <= i < |s| ==> s[i] < m) && (forall i, j :: 0 <= i < j < |s| ==> s[i] != s[j])
    ensures |s| <= m
    decreases m
  {
    if |s| > 0 {
      var n := |s| - 1;
      var last := s[n];
      var s' := seq(n, i requires 0 <= i < n => if s[i] == m - 1 then last else s[i]);
      Squeeze(s', m - 1);
    }
  }

  /** The generator visits every residue exactly once in `m` steps. */
  ghost predicate FullPeriod(m: nat, a: nat, c: nat)
    requires m > 0
  {
    IsPermutation(Residues(m, a, c, m))
  }

  lemma GoodParametersFullPeriod(k: nat, a: nat, c: nat)
    requires a % 4 == 1 && c % 2 == 1
    ensures FullPeriod(Pow2(k), a, c)
  {
    var m := Pow2(k);
    var s := Residues(m, a, c, m);
    forall i | 0 <= i < m
      ensures s[i] == Residue(m, a, c, i + 1) < m
    {
      ResiduesAt(m, a, c, m, i);
    }
    forall i, j | 0 <= i < j < m
      ensures s[i] != s[j]
    {
      ResiduesDiffer(k, a, c, i + 1, j - i);
    }
    forall r | 0 <= r < m
      ensures r in s
    {
      Pigeonhole(s, m, r);
    }
  }

  // ----- the check says exactly this

  /** Both numbers are multiples of their greatest common divisor, and it is a
      multiple of every common divisor. */
  lemma CommonFactor(g: nat, p: nat, q: nat, d: nat)
    ensures g * (p * d + q) == (g * p) * d + g * q
  {
  }

  lemma {:induction false} GcdDivides(x: nat, y: nat) returns (p: nat, q: nat)
    ensures x == Gcd(x, y) * p && y == Gcd(x, y) * q
    decreases y
  {
    if y == 0 {
      p, q := 1, 0;
    } else {
      hide Remainder;
      var p', q' := GcdDivides(y, Remainder(x, y));
      var d := Division(x, y);
      p, q := p' * d + q', p';
      CommonFactor(Gcd(x, y), p', q', d);
    }
  }

  lemma {:induction false} GcdOfEvens(x: nat, y: nat)
    requires x % 2 == 0 && y % 2 == 0
    ensures Gcd(x, y) % 2 == 0
    decreases y
  {
    if y > 0 {
      EvenRemainder(x, y);
      GcdOfEvens(y, Remainder(x, y));
    }
  }

  lemma EvenRemainder(x: nat, y: nat)
    requires x % 2 == 0 && y % 2 == 0 && y > 0
    ensures Remainder(x, y) % 2 == 0
  {
    hide Remainder;
    var q := Division(x, y);
    EvenProduct(y, q);
    EvenRest(x, y * q, Remainder(x, y));
  }

  lemma EvenRest(x: nat, w: nat, r: nat)
    requires x == w + r && x % 2 == 0 && w % 2 == 0
    ensures r % 2 == 0
  {
  }

  lemma EvenProduct(y: nat, q: nat)
    requires y % 2 == 0
    ensures (y * q) % 2 == 0
  {
    TimesDouble(y / 2, q);
    Parity(y * q, y / 2 * q, 0);
  }

  /** Against a power of two the first half of the check asks for an odd increment. */
  lemma CoprimeIsOdd(k: nat, c: nat)
    requires k > 0
    ensures Gcd(c, Pow2(k)) == 1 <==> c % 2 == 1
  {
    var m := Pow2(k);
    assert m % 2 == 0;
    hide Gcd, Pow2;
    if c % 2 == 0 {
      GcdOfEvens(c, m);
    } else {
      var p, q := GcdDivides(c, m);
      CoprimeToPower(k, c, Gcd(c, m), p, q);
    }
  }

  /** A common factor of an odd number and a power of two. */
  lemma CoprimeToPower(k: nat, c: nat, g: nat, p: nat, q: nat)
    requires c % 2 == 1 && c == g * p && Pow2(k) == g * q
    ensures g == 1
  {
    hide Divides, Pow2;
    OddOfOdd(g, p);
    DividesIsMod(k, q * g);
    DivideUnique(q * g, q * g, 1, 0);
    OddFactor(k, q, g);
    DividesIsMod(k, q);
    OnlyOne(g, q, Pow2(k));
  }

  lemma OddOfOdd(g: nat, p: nat)
    requires (g * p) % 2 == 1
    ensures g % 2 == 1
  {
    if g % 2 == 0 {
      EvenProduct(g, p);
    }
  }

  lemma OnlyOne(g: nat, q: nat, m: nat)
    requires m > 0 && m == g * q && q % m == 0
    ensures g == 1
  {
    var j := q / m;
    assert q == m * j;
    assert g * (m * j) == m * (g * j);
    Cancel(m, g * j);
    assert g * j == 1;
  }

  lemma Cancel(m: nat, t: nat)
    requires m > 0 && m == m * t
    ensures t == 1
  {
  }

  lemma Mod4(y: nat, z: nat, r: nat)
    requires y == 4 * z + r
    ensures y % 4 == r % 4 && y % 2 == r % 2
  {
    var r4, r2 := r / 4, r / 2;
    DivideUnique(y, 4, z + r4, r % 4);
    DivideUnique(y, 2, 2 * z + r2, r % 2);
  }

  lemma PowFour(k: nat)
    requires k >= 2
    ensures Pow2(k) == 4 * Pow2(k - 2) >= 4
  {
    assert Pow2(k - 1) == 2 * Pow2(k - 2);
  }

  lemma ReduceMod4(m: nat, p: nat, y: nat, q: nat, r: nat)
    requires m == 4 * p && y == m * q + r
    ensures y % 4 == r % 4 && y % 2 == r % 2
  {
    assert m * q == 4 * (p * q);
    Mod4(y, p * q, r);
  }

  lemma ResidueZero(m: nat, a: nat, c: nat)
    requires m > 0
    ensures Residue(m, a, c, 0) == 0
  {
  }

  lemma ResidueNext(m: nat, a: nat, c: nat, n: nat)
    requires m > 0
    ensures Residue(m, a, c, n) < m && Residue(m, a, c, n + 1) == (a * Residue(m, a, c, n) + c) % m
  {
  }

  lemma ResidueQuotient(m: nat, a: nat, c: nat, n: nat, ax: nat) returns (q: nat)
    requires m > 0 && n > 0 && ax == a * Residue(m, a, c, n - 1)
    ensures ax + c == m * q + Residue(m, a, c, n)
  {
    q := (ax + c) / m;
  }

  /** One step modulo 2^k, seen modulo 4: ax stands for the product a * x. */
  lemma StepMod4(k: nat, a: nat, c: nat, n: nat, ax: nat)
    requires k >= 2 && n > 0 && ax == a * Residue(Pow2(k), a, c, n - 1)
    ensures var r := Residue(Pow2(k), a, c, n); r % 4 == (ax + c) % 4 && r % 2 == (ax + c) % 2
  {
    hide Residue;
    PowFour(k);
    var q := ResidueQuotient(Pow2(k), a, c, n, ax);
    ReduceMod4(Pow2(k), Pow2(k - 2), ax + c, q, Residue(Pow2(k), a, c, n));
  }

  /** With an even increment only even residues come up. */
  lemma {:induction false} EvenIncrement(k: nat, a: nat, c: nat, n: nat)
    requires k >= 2 && c % 2 == 0
    ensures Residue(Pow2(k), a, c, n) % 2 == 0
  {
    hide Residue;
    ResidueZero(Pow2(k), a, c);
    if n > 0 {
      EvenIncrement(k, a, c, n - 1);
      var x := Residue(Pow2(k), a, c, n - 1);
      EvenProduct(x, a);
      StepMod4(k, a, c, n, x * a);
      EvenSum(x * a, c);
    }
  }

  lemma EvenSum(x: nat, y: nat)
    requires x % 2 == 0 && y % 2 == 0
    ensures (x + y) % 2 == 0
  {
  }

  /** With an even multiplier all residues have the increment's parity. */
  lemma EvenMultiplier(k: nat, a: nat, c: nat, n: nat)
    requires k >= 2 && a % 2 == 0 && n > 0
    ensures Residue(Pow2(k), a, c, n) % 2 == c % 2
  {
    hide Residue;
    var x := Residue(Pow2(k), a, c, n - 1);
    EvenProduct(a, x);
    StepMod4(k, a, c, n, a * x);
    EvenPlus(a * x, c);
  }

  lemma EvenPlus(w: nat, c: nat)
    requires w % 2 == 0
    ensures (w + c) % 2 == c % 2
  {
  }

  /** With a multiplier that is 3 modulo 4 the residues alternate modulo 4. */
  lemma {:induction false} ThreeMod4(k: nat, a: nat, c: nat, n: nat)
    requires k >= 2 && a % 4 == 3 && c % 2 == 1
    ensures Residue(Pow2(k), a, c, n) % 4 == (if n % 2 == 0 then 0 else c % 4)
  {
    hide Residue;
    ResidueZero(Pow2(k), a, c);
    if n > 0 {
      ThreeMod4(k, a, c, n - 1);
      var x := Residue(Pow2(k), a, c, n - 1);
      ProductMod4(a, x);
      StepMod4(k, a, c, n, a * x);
      Alternate(x, a * x, c, Residue(Pow2(k), a, c, n), (n - 1) % 2 == 0);
    }
  }

  lemma Alternate(x: nat, ax: nat, c: nat, r: nat, even: bool)
    requires c % 2 == 1 && x % 4 == (if even then 0 else c % 4) && ax % 4 == 3 * (x % 4) % 4 && r % 4 == (ax + c) % 4
    ensures r % 4 == if even then c % 4 else 0
  {
    SumMod4(ax, c);
    OddMod4(c);
  }

  lemma SumMod4(x: nat, y: nat)
    ensures (x + y) % 4 == (x % 4 + y % 4) % 4
  {
    Mod4(x + y, x / 4 + y / 4, x % 4 + y % 4);
  }

  lemma OddMod4(c: nat)
    requires c % 2 == 1
    ensures c % 4 == 1 || c % 4 == 3
  {
    Mod4(c, c / 4, c % 4);
  }

  lemma LessOne(a: nat)
    ensures (a - 1) % 4 == 0 <==> a % 4 == 1
  {
    var q, r := a / 4, a % 4;
    if r == 0 {
      DivideUnique(a - 1, 4, q - 1, 3);
    } else {
      DivideUnique(a - 1, 4, q, r - 1);
    }
  }

  lemma ProductMod4(a: nat, x: nat)
    requires a % 4 == 3
    ensures (a * x) % 4 == (3 * (x % 4)) % 4
  {
    var b := a / 4;
    TimesThree(b, x);
    Mod4(a * x, b * x, 3 * x);
    Mod4(3 * x, 3 * (x / 4), 3 * (x % 4));
  }

  lemma TimesThree(b: nat, x: nat)
    ensures (4 * b + 3) * x == 4 * (b * x) + 3 * x
  {
  }

  /** For every power of two from four on, the check passes exactly the parameters
      with full period. */
  lemma HullDobell(k: nat, a: nat, c: nat)
    requires k >= 2
    ensures CheckHullDobell(Pow2(k), a, c) <==> FullPeriod(Pow2(k), a, c)
  {
    hide Gcd, Pow2, FullPeriod;
    var m := Pow2(k);
    PowFour(k);
    Mod4(m, Pow2(k - 2), 0);
    CoprimeIsOdd(k, c);
    LessOne(a);
    if CheckHullDobell(m, a, c) {
      GoodParametersFullPeriod(k, a, c);
    }
    if FullPeriod(m, a, c) {
      FullPeriodGoodParameters(k, a, c);
    }
  }

  lemma FullPeriodGoodParameters(k: nat, a: nat, c: nat)
    requires k >= 2 && FullPeriod(Pow2(k), a, c)
    ensures c % 2 == 1 && a % 4 == 1
  {
    hide FullPeriod, Residue, Pow2;
    PowFour(k);
    var m := Pow2(k);
    if c % 2 == 0 {
      var i := Visit(m, a, c, 1);
      EvenIncrement(k, a, c, i);
    } else if a % 2 == 0 {
      var i := Visit(m, a, c, 0);
      EvenMultiplier(k, a, c, i);
    } else {
      OddMod4(a);
      if a % 4 == 3 {
        OddMod4(c);
        var i := Visit(m, a, c, 2);
        ThreeMod4(k, a, c, i);
      }
    }
  }

  lemma Visit(m: nat, a: nat, c: nat, r: nat) returns (i: nat)
    requires m > 0 && FullPeriod(m, a, c) && r < m
    ensures 0 < i <= m && Residue(m, a, c, i) == r
  {
    var s := Residues(m, a, c, m);
    assert r in s;
    var j :| 0 <= j < m && s[j] == r;
    ResiduesAt(m, a, c, m, j);
    i := j + 1;
  }

  /** A range of one address: its only residue comes up. */
  lemma SizeOne(a: nat, c: nat)
    ensures CheckHullDobell(1, a, c) && FullPeriod(1, a, c)
  {
    assert Gcd(c, 1) == Gcd(1, c % 1) == 1;
    assert Residues(1, a, c, 1) == [Residue(1, a, c, 1)];
  }

  /** A range of two addresses: the check lets an even multiplier through, with which
      one of the two never comes up. */
  lemma SizeTwo(a: nat, c: nat)
    requires a < 2 && c < 2
    ensures CheckHullDobell(2, a, c) <==> c == 1
    ensures FullPeriod(2, a, c) <==> a == 1 && c == 1
    ensures CheckHullDobell(2, 0, 1) && !FullPeriod(2, 0, 1)
  {
    assert Pow2(1) == 2;
    CoprimeIsOdd(1, c);
    CoprimeIsOdd(1, 1);
    ShortRun(a, c);
    ShortRun(0, 1);
  }

  lemma ShortRun(a: nat, c: nat)
    requires a < 2 && c < 2
    ensures FullPeriod(2, a, c) <==> a == 1 && c == 1
  {
    var s := Residues(2, a, c, 2);
    assert Residues(2, a, c, 1) == Residues(2, a, c, 0) + [Residue(2, a, c, 1)];
    assert Residue(2, a, c, 0) == 0 && Residue(2, a, c, 1) == c && Residue(2, a, c, 2) == (a * c + c) % 2;
    assert s[0] == c && s[1] == (a * c + c) % 2;
    if a == 1 && c == 1 {
      assert s == [1, 0];
    } else {
      assert a * c == 0;
    }
  }
}
