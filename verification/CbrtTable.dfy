/** The sieve behind the cube-root table, in exact arithmetic: a table of a
    completely multiplicative function, built from its values at the primes
    that the sieve discovers on the way. */
module CbrtTable {
  import opened Primes

  function Power(x: real, k: nat): real {
    if k == 0 then 1.0 else Power(x, k - 1) * x
  }

  /** The product of f(p) over the prime factors p < bound of n, each as often
      as it divides n. */
  ghost function Weight(n: nat, bound: nat, f: nat -> real): real
    requires n >= 1
    decreases bound
  {
    if bound <= 2 then 1.0
    else Weight(n, bound - 1, f) * Factor(n, bound - 1, f)
  }

  ghost function Factor(n: nat, p: nat, f: nat -> real): real
    requires n >= 1 && p >= 2
  {
    if Prime(p) then Power(f(p), Multiplicity(n, p)) else 1.0
  }

  /** The completely multiplicative extension of f from the primes. */
  ghost function Extension(n: nat, f: nat -> real): real
    requires n >= 1
  {
    Weight(n, n + 1, f)
  }

  ghost predicate Growing(f: nat -> real) {
    forall i: nat :: i >= 2 ==> f(i) > 1.0
  }

  // ----- powers

  lemma {:induction false} PowerAdd(x: real, a: nat, b: nat)
    ensures Power(x, a + b) == Power(x, a) * Power(x, b)
  {
    if b > 0 {
      PowerAdd(x, a, b - 1);
      assert Power(x, a + b) == Power(x, a + (b - 1)) * x;
      TimesAssoc(Power(x, a), Power(x, b - 1), x);
    }
  }

  lemma TimesAssoc(a: real, b: real, c: real)
    ensures (a * b) * c == a * (b * c)
  {
  }

  lemma TimesSwap(a: real, b: real, c: real, d: real)
    ensures (a * b) * (c * d) == (a * c) * (b * d)
  {
  }

  lemma TimesAbove(a: real, b: real)
    requires a >= 1.0 && b >= 1.0
    ensures a * b >= 1.0 && (a * b == 1.0 <==> a == 1.0 && b == 1.0)
  {
    assert a * b == a + a * (b - 1.0);
    NonNegativeProduct(a, b - 1.0);
    if b > 1.0 {
      PositiveProduct(a, b - 1.0);
    }
  }

  lemma NonNegativeProduct(a: real, b: real)
    requires a >= 0.0 && b >= 0.0
    ensures a * b >= 0.0
  {
  }

  lemma PositiveProduct(a: real, b: real)
    requires a > 0.0 && b > 0.0
    ensures a * b > 0.0
  {
  }

  lemma {:induction false} PowerAbove(x: real, k: nat)
    requires x > 1.0
    ensures Power(x, k) >= 1.0 && (Power(x, k) == 1.0 <==> k == 0)
  {
    if k > 0 {
      PowerAbove(x, k - 1);
      TimesAbove(Power(x, k - 1), x);
    }
  }

  // ----- the weight

  lemma FactorProduct(a: nat, b: nat, p: nat, f: nat -> real)
    requires a >= 1 && b >= 1 && p >= 2
    ensures a * b >= 1 && Factor(a * b, p, f) == Factor(a, p, f) * Factor(b, p, f)
  {
    hide Prime, Multiplicity;
    AtLeastOne(a, b);
    if Prime(p) {
      MultiplicityProduct(a, b, p);
      PowerAdd(f(p), Multiplicity(a, p), Multiplicity(b, p));
    }
  }

  lemma {:induction false} WeightProduct(a: nat, b: nat, bound: nat, f: nat -> real)
    requires a >= 1 && b >= 1
    ensures a * b >= 1 && Weight(a * b, bound, f) == Weight(a, bound, f) * Weight(b, bound, f)
    decreases bound
  {
    hide Prime, Multiplicity, Weight, Factor;
    AtLeastOne(a, b);
    if bound <= 2 {
      WeightStart(a, bound, f);
      WeightStart(b, bound, f);
      WeightStart(a * b, bound, f);
    } else {
      var p := bound - 1;
      WeightProduct(a, b, p, f);
      FactorProduct(a, b, p, f);
      WeightStep(a, bound, f);
      WeightStep(b, bound, f);
      WeightStep(a * b, bound, f);
      TimesSwap(Weight(a, p, f), Weight(b, p, f), Factor(a, p, f), Factor(b, p, f));
    }
  }

  lemma {:induction false} WeightStable(n: nat, bound: nat, f: nat -> real)
    requires 1 <= n < bound
    ensures Weight(n, bound, f) == Extension(n, f)
    decreases bound
  {
    hide Prime, Multiplicity;
    if bound > n + 1 {
      WeightStable(n, bound - 1, f);
      if bound > 2 {
        MultiplicityLarge(n, bound - 1);
      }
    }
  }

  /** The test of the sieve: the weight of the primes below the bound is 1 just
      when none of them divides n. */
  lemma {:induction false} WeightIsOne(n: nat, bound: nat, f: nat -> real)
    requires n >= 1 && Growing(f)
    ensures Weight(n, bound, f) >= 1.0
    ensures Weight(n, bound, f) == 1.0
            <==> forall p: nat {:trigger Prime(p)} :: Prime(p) && p < bound ==> !Divides(p, n)
    decreases bound
  {
    if bound > 2 {
      var p := bound - 1;
      WeightIsOne(n, p, f);
      hide Weight, Prime, Divides;
      WeightStep(n, bound, f);
      FactorIsOne(n, p, f);
      TimesAbove(Weight(n, p, f), Factor(n, p, f));
    }
  }

  lemma WeightStart(n: nat, bound: nat, f: nat -> real)
    requires n >= 1 && bound <= 2
    ensures Weight(n, bound, f) == 1.0
  {
  }

  lemma WeightStep(n: nat, bound: nat, f: nat -> real)
    requires n >= 1 && bound > 2
    ensures Weight(n, bound, f) == Weight(n, bound - 1, f) * Factor(n, bound - 1, f)
  {
  }

  lemma FactorIsOne(n: nat, p: nat, f: nat -> real)
    requires n >= 1 && p >= 2 && Growing(f)
    ensures Factor(n, p, f) >= 1.0
    ensures Factor(n, p, f) == 1.0 <==> !(Prime(p) && Divides(p, n))
  {
    hide Prime, Divides;
    PowerAbove(f(p), Multiplicity(n, p));
  }

  /** An entry is still 1 when its turn comes just when its number is prime. */
  lemma UntouchedIsPrime(n: nat, f: nat -> real)
    requires n >= 2 && Growing(f)
    ensures Weight(n, n, f) == 1.0 <==> Prime(n)
  {
    hide Prime, Divides, Weight;
    WeightIsOne(n, n, f);
    SmallFactorOrPrime(n);
  }

  /** The extension is completely multiplicative. */
  lemma ExtensionProduct(a: nat, b: nat, f: nat -> real)
    requires a >= 1 && b >= 1
    ensures a * b >= 1 && Extension(a * b, f) == Extension(a, f) * Extension(b, f)
  {
    hide Weight;
    AtLeastOne(a, b);
    assert a <= a * b && b <= a * b by {
      Positive(a, b);
    }
    WeightProduct(a, b, a * b + 1, f);
    WeightStable(a, a * b + 1, f);
    WeightStable(b, a * b + 1, f);
  }

  lemma ExtensionPrime(p: nat, f: nat -> real)
    requires Prime(p) && Growing(f)
    ensures Extension(p, f) == f(p)
  {
    UntouchedIsPrime(p, f);
    hide Weight, Prime;
    AtLeastTwo(p);
    WeightStep(p, p + 1, f);
    MultiplicityOfPrime(p, p);
    assert Power(f(p), 1) == 1.0 * f(p);
  }

  lemma ExtensionOne(f: nat -> real)
    ensures Extension(1, f) == 1.0
  {
  }

  ghost function Product(ps: seq<nat>): (n: nat)
    requires forall i :: 0 <= i < |ps| ==> ps[i] >= 1
    ensures n >= 1
  {
    if |ps| == 0 then 1 else
      var rest := Product(ps[1..]);
      AtLeastOne(ps[0], rest);
      ps[0] * rest
  }

  ghost function Values(ps: seq<nat>, f: nat -> real): real {
    if |ps| == 0 then 1.0 else f(ps[0]) * Values(ps[1..], f)
  }

  ghost predicate AllPrime(ps: seq<nat>) {
    forall i :: 0 <= i < |ps| ==> Prime(ps[i])
  }

  lemma PrimesPositive(ps: seq<nat>)
    requires AllPrime(ps)
    ensures forall i :: 0 <= i < |ps| ==> ps[i] >= 1
  {
  }

  /** However a number is written as a product of primes, its entry is the
      product of f over them. */
  lemma {:induction false} ExtensionOfFactors(ps: seq<nat>, f: nat -> real)
    requires AllPrime(ps) && Growing(f)
    ensures Extension(Product(ps), f) == Values(ps, f)
  {
    PrimesPositive(ps);
    hide Extension, Prime;
    if |ps| == 0 {
      ExtensionOne(f);
    } else {
      ExtensionOfFactors(ps[1..], f);
      ExtensionProduct(ps[0], Product(ps[1..]), f);
      ExtensionPrime(ps[0], f);
    }
  }

  // ----- powers of a prime

  ghost function PowerNat(p: nat, e: nat): nat {
    if e == 0 then 1 else p * PowerNat(p, e - 1)
  }

  lemma {:induction false} PowerDivides(n: nat, p: nat, e: nat)
    requires n >= 1 && p >= 2
    ensures Divides(PowerNat(p, e), n) <==> e <= Multiplicity(n, p)
    decreases e
  {
    if e == 0 {
      assert n == 1 * n;
    } else {
      var k := PowerNat(p, e - 1);
      if Divides(p, n) {
        var q := Quotient(n, p);
        PowerDivides(q, p, e - 1);
        DividesScaled(p, k, q);
      } else {
        if Divides(p * k, n) {
          DividesProduct(p, k);
          DividesTransitive(p, p * k, n);
        }
      }
    }
  }

  lemma DividesScaled(p: nat, k: nat, q: nat)
    requires p >= 1
    ensures Divides(p * k, p * q) <==> Divides(k, q)
  {
    if Divides(p * k, p * q) {
      var j: nat :| p * q == (p * k) * j;
      Regroup(p, k, j);
      CancelLeft(p, q, k * j);
    }
    if Divides(k, q) {
      var j: nat :| q == k * j;
      Regroup(p, k, j);
    }
  }

  lemma {:induction false} PowerNatOdd(p: nat, e: nat)
    requires p % 2 == 1 && p >= 3
    ensures PowerNat(p, e) % 2 == 1 && PowerNat(p, e) > e
    decreases e
  {
    if e > 0 {
      PowerNatOdd(p, e - 1);
      OddProduct(p, PowerNat(p, e - 1));
      MulLess(PowerNat(p, e - 1), 1, p);
    }
  }

  lemma OddProduct(a: nat, b: nat)
    ensures (a * b) % 2 == (if a % 2 == 1 && b % 2 == 1 then 1 else 0)
  {
    var x := a / 2;
    if a % 2 == 0 {
      assert a * b == 2 * (x * b);
    } else {
      assert a * b == 2 * (x * b) + b;
    }
    EvenPlus(x * b, 0);
    EvenPlus(x * b, b);
  }

  lemma EvenPlus(t: nat, b: nat)
    ensures (2 * t + b) % 2 == b % 2
  {
  }

  // ----- the table of the odd numbers, entry x holding 2x+1

  /** The number an entry stands for. */
  function OddAt(x: nat): nat {
    2 * x + 1
  }

  ghost function Passed(n: nat, k: nat, c: real): real {
    if Divides(k, n) then c else 1.0
  }

  /** Multiplies the entries of the odd multiples of k by c. */
  method MultiplyMultiples(tmp: array<real>, k: nat, start: nat, c: real)
    requires k % 2 == 1 && OddAt(start) == k
    modifies tmp
    ensures forall x: nat :: x < tmp.Length ==> tmp[x] == old(tmp[x]) * Passed(OddAt(x), k, c)
  {
    hide Divides;
    var idx2 := start;
    ghost var t: nat := 0;
    NoMultiple(k, 0);
    while idx2 < tmp.Length
      invariant OddAt(idx2) == k * (2 * t + 1)
      invariant forall x: nat :: x < idx2 && x < tmp.Length ==> tmp[x] == old(tmp[x]) * Passed(OddAt(x), k, c)
      invariant forall x: nat :: idx2 <= x < tmp.Length ==> tmp[x] == old(tmp[x])
      decreases tmp.Length - idx2
    {
      DividesProduct(k, 2 * t + 1);
      NextMultiple(k, t);
      NoMultiple(k, t + 1);
      tmp[idx2] := tmp[idx2] * c;
      idx2 := idx2 + k;
      t := t + 1;
    }
  }

  lemma NextMultiple(k: nat, t: nat)
    ensures k * (2 * (t + 1) + 1) == k * (2 * t + 1) + 2 * k
  {
  }

  /** Between two odd multiples of k there is no other. */
  lemma NoMultiple(k: nat, t: nat)
    requires k % 2 == 1
    ensures forall x: nat {:trigger OddAt(x)} ::
              k * (2 * t + 1) - 2 * k < OddAt(x) < k * (2 * t + 1) ==> !Divides(k, OddAt(x))
  {
    forall x: nat {:trigger OddAt(x)} | k * (2 * t + 1) - 2 * k < OddAt(x) < k * (2 * t + 1)
      ensures !Divides(k, OddAt(x))
    {
      NotMultiple(k, 2 * t + 1, OddAt(x));
    }
  }

  lemma NotMultiple(k: nat, o: nat, n: nat)
    requires k % 2 == 1 && o % 2 == 1 && n % 2 == 1 && k * o - 2 * k < n < k * o
    ensures !Divides(k, n)
  {
    if Divides(k, n) {
      var j: nat :| n == k * j;
      OddProduct(k, j);
      OddSteps(k, j, o);
    }
  }

  lemma OddSteps(k: nat, j: nat, o: nat)
    requires j % 2 == 1 && o % 2 == 1
    ensures k * j >= k * o || k * j + 2 * k <= k * o
  {
    if j >= o {
      Order(k, o, j);
    } else {
      Order(k, j + 2, o);
      assert k * (j + 2) == k * j + 2 * k;
    }
  }

  lemma Order(k: nat, a: nat, b: nat)
    requires a <= b
    ensures k * a <= k * b
  {
    if a < b && k >= 1 {
      MulLess(k, a, b);
    }
  }

  function Min(a: nat, b: nat): nat {
    if a <= b then a else b
  }

  ghost function Capped(n: nat, i: nat, e: nat): nat
    requires n >= 1 && i >= 2
  {
    Min(Multiplicity(n, i), e)
  }

  lemma CappedZero(i: nat)
    requires i >= 2
    ensures forall n: nat :: n >= 1 ==> Capped(n, i, 0) == 0
  {
  }

  lemma CapStep(c: real, n: nat, i: nat, e: nat, before: real)
    requires n >= 1 && i >= 2
    ensures before * Power(c, Capped(n, i, e)) * Passed(n, PowerNat(i, e + 1), c)
            == before * Power(c, Capped(n, i, e + 1))
  {
    hide Divides, Multiplicity, PowerNat;
    PowerDivides(n, i, e + 1);
    TimesAssoc(before, Power(c, Capped(n, i, e)), Passed(n, PowerNat(i, e + 1), c));
  }

  /** Multiplies every entry by c as often as the prime i divides its number:
      one pass for each power of i below the table's size. */
  method MultiplyPowers(tmp: array<real>, i: nat, c: real, size: nat)
    requires i % 2 == 1 && i >= 3 && size == 2 * tmp.Length
    modifies tmp
    ensures forall x: nat :: x < tmp.Length ==> tmp[x] == old(tmp[x]) * Power(c, Multiplicity(OddAt(x), i))
  {
    hide Divides, Passed, Multiplicity, Power, PowerNat, Capped;
    CappedZero(i);
    ghost var first := tmp[..];
    var k := i;
    ghost var e: nat := 0;
    PowerNatStep(i, 0);
    PowerZero(c);
    while k < size
      invariant k == PowerNat(i, e + 1) && k % 2 == 1 && k > e
      invariant forall x: nat :: x < tmp.Length ==>
                  tmp[x] == first[x] * Power(c, Capped(OddAt(x), i, e))
      decreases size - e
    {
      ghost var before := tmp[..];
      MultiplyMultiples(tmp, k, k / 2, c);
      forall x: nat | x < tmp.Length
        ensures tmp[x] == first[x] * Power(c, Capped(OddAt(x), i, e + 1))
      {
        CapStep(c, OddAt(x), i, e, first[x]);
        assert tmp[x] == before[x] * Passed(OddAt(x), k, c);
      }
      PowerNatStep(i, e + 1);
      PowerNatOdd(i, e + 2);
      k := k * i;
      e := e + 1;
    }
    forall x: nat | x < tmp.Length ensures Capped(OddAt(x), i, e) == Multiplicity(OddAt(x), i) {
      NoMorePowers(OddAt(x), i, e);
    }
  }

  lemma NoMorePowers(n: nat, i: nat, e: nat)
    requires 1 <= n < PowerNat(i, e + 1) && i >= 2
    ensures Capped(n, i, e) == Multiplicity(n, i)
  {
    hide Divides, Multiplicity, PowerNat;
    PowerDivides(n, i, e + 1);
    if Divides(PowerNat(i, e + 1), n) {
      DividesBound(PowerNat(i, e + 1), n);
    }
  }

  lemma PowerNatStep(i: nat, e: nat)
    ensures PowerNat(i, e + 1) == PowerNat(i, e) * i
    ensures PowerNat(i, 0) == 1
  {
  }

  lemma PowerZero(c: real)
    ensures Power(c, 0) == 1.0
  {
  }

  ghost predicate Swept(tmp: seq<real>, bound: nat, f: nat -> real) {
    forall x: nat :: x < |tmp| ==> tmp[x] == Weight(OddAt(x), bound, f)
  }

  lemma SweptStart(tmp: seq<real>, f: nat -> real)
    requires forall x: nat :: x < |tmp| ==> tmp[x] == 1.0
    ensures Swept(tmp, 3, f)
  {
    forall x: nat | x < |tmp| ensures Weight(OddAt(x), 3, f) == 1.0 {
      OddHasNoTwo(OddAt(x), f);
    }
  }

  lemma OddHasNoTwo(n: nat, f: nat -> real)
    requires n % 2 == 1
    ensures Weight(n, 3, f) == 1.0
  {
    OddNotDivisible(n);
  }

  lemma OddNotDivisible(n: nat)
    ensures Divides(2, n) ==> n % 2 == 0
  {
  }

  lemma EvenNotPrime(p: nat)
    requires p > 2 && p % 2 == 0
    ensures !Prime(p)
  {
    assert p == 2 * (p / 2);
    assert Divides(2, p);
  }

  /** Two more numbers are behind the sieve: the entry's own, and an even one
      that is never prime. */
  lemma WeightNext(n: nat, i: nat, f: nat -> real)
    requires n >= 1 && i % 2 == 1 && i >= 3
    ensures Weight(n, i + 2, f)
            == Weight(n, i, f) * (if Prime(i) then Power(f(i), Multiplicity(n, i)) else 1.0)
  {
    hide Prime, Weight, Power, Multiplicity;
    WeightStep(n, i + 2, f);
    WeightStep(n, i + 1, f);
    EvenNotPrime(i + 1);
  }

  lemma SweptNext(before: seq<real>, after: seq<real>, i: nat, f: nat -> real)
    requires |before| == |after| && i % 2 == 1 && i >= 3 && Swept(before, i, f)
    requires forall x: nat :: x < |after| ==>
               after[x] == before[x] * (if Prime(i) then Power(f(i), Multiplicity(OddAt(x), i)) else 1.0)
    ensures Swept(after, i + 2, f)
  {
    hide Prime, Weight, Power, Multiplicity;
    forall x: nat | x < |after| ensures after[x] == Weight(OddAt(x), i + 2, f) {
      WeightNext(OddAt(x), i, f);
    }
  }

  /** Past the cutoff a prime divides no number of the table twice. */
  lemma OncePastCutoff(n: nat, i: nat, cut: nat, size: nat)
    requires 1 <= n < size <= cut * cut && cut <= i && i >= 2
    ensures Multiplicity(n, i) == if Divides(i, n) then 1 else 0
  {
    hide Divides;
    PowerDivides(n, i, 1);
    PowerDivides(n, i, 2);
    assert PowerNat(i, 2) == i * (i * 1) == i * i;
    assert PowerNat(i, 1) == i * 1 == i;
    Order(i, cut, i);
    Order(cut, cut, i);
    if Divides(i * i, n) {
      DividesBound(i * i, n);
    }
  }

  /** One number's turn in the first phase: all powers of a prime. */
  method SweepPowers(tmp: array<real>, idx: nat, f: nat -> real, size: nat)
    requires 1 <= idx < tmp.Length && size == 2 * tmp.Length && Growing(f)
    requires Swept(tmp[..], OddAt(idx), f)
    modifies tmp
    ensures Swept(tmp[..], OddAt(idx + 1), f)
  {
    hide Prime, Weight, Power, Multiplicity, Swept;
    ghost var before := tmp[..];
    UntouchedIsPrime(OddAt(idx), f);
    SweptAt(before, idx, OddAt(idx), f);
    if tmp[idx] == 1.0 {
      var i := 2 * idx + 1;
      var cbrtVal := f(i);
      MultiplyPowers(tmp, i, cbrtVal, size);
    }
    SweptNext(before, tmp[..], OddAt(idx), f);
  }

  lemma SweptAt(tmp: seq<real>, x: nat, bound: nat, f: nat -> real)
    requires x < |tmp| && Swept(tmp, bound, f)
    ensures tmp[x] == Weight(OddAt(x), bound, f)
  {
  }

  /** One number's turn in the second phase: a single pass. */
  method SweepOnce(tmp: array<real>, idx: nat, f: nat -> real, ghost cut: nat)
    requires 1 <= cut <= idx < tmp.Length && Growing(f)
    requires 2 * tmp.Length <= OddAt(cut) * OddAt(cut)
    requires Swept(tmp[..], OddAt(idx), f)
    modifies tmp
    ensures Swept(tmp[..], OddAt(idx + 1), f)
  {
    hide Prime, Weight, Power, Multiplicity, Swept, Divides;
    ghost var before := tmp[..];
    UntouchedIsPrime(OddAt(idx), f);
    SweptAt(before, idx, OddAt(idx), f);
    if tmp[idx] == 1.0 {
      var i := 2 * idx + 1;
      var cbrtVal := f(i);
      MultiplyMultiples(tmp, i, idx, cbrtVal);
      forall x: nat | x < tmp.Length
        ensures tmp[x] == before[x] * Power(f(i), Multiplicity(OddAt(x), i))
      {
        OncePastCutoff(OddAt(x), i, OddAt(cut), 2 * tmp.Length);
        PowerOfOne(f(i));
        assert tmp[x] == before[x] * Passed(OddAt(x), i, cbrtVal);
      }
    }
    SweptNext(before, tmp[..], OddAt(idx), f);
  }

  lemma PowerOfOne(c: real)
    ensures Power(c, 0) == 1.0 && Power(c, 1) == c
  {
    assert Power(c, 1) == Power(c, 0) * c;
  }

  /** The double table: entry x ends as the extension of f at 2x+1. The source
      calls it with cut = 45 and 4096 entries. */
  method DblTableInit(tmp: array<real>, f: nat -> real, cut: nat)
    requires Growing(f) && 1 <= cut <= tmp.Length
    requires 2 * tmp.Length <= OddAt(cut) * OddAt(cut)
    modifies tmp
    ensures forall x: nat :: x < tmp.Length ==> tmp[x] == Extension(OddAt(x), f)
  {
    hide Weight, Swept, Extension;
    var x := 0;
    while x < tmp.Length
      invariant 0 <= x <= tmp.Length
      invariant forall y: nat :: y < x ==> tmp[y] == 1.0
    {
      tmp[x] := 1.0;
      x := x + 1;
    }
    SweptStart(tmp[..], f);
    var idx := 1;
    while idx < cut
      invariant 1 <= idx <= cut
      invariant Swept(tmp[..], OddAt(idx), f)
    {
      SweepPowers(tmp, idx, f, 2 * tmp.Length);
      idx := idx + 1;
    }
    idx := cut;
    while idx < tmp.Length
      invariant cut <= idx <= tmp.Length
      invariant Swept(tmp[..], OddAt(idx), f)
    {
      SweepOnce(tmp, idx, f, cut);
      idx := idx + 1;
    }
    forall y: nat | y < tmp.Length ensures tmp[y] == Extension(OddAt(y), f) {
      SweptAt(tmp[..], y, OddAt(tmp.Length), f);
      WeightStable(OddAt(y), OddAt(tmp.Length), f);
    }
  }

  // ----- the fixed-point table of all numbers

  function OddPart(n: nat): (o: nat)
    requires n >= 1
    ensures o % 2 == 1 && 1 <= o <= n
  {
    if n % 2 == 1 then n else OddPart(n / 2)
  }

  /** A doubling run meets each number of its odd part once. */
  lemma {:induction false} OddPartAlone(m: nat, n: nat)
    requires 1 <= m <= n < 2 * m && OddPart(m) == OddPart(n)
    ensures m == n
    decreases n
  {
    if m % 2 == 0 && n % 2 == 0 {
      OddPartAlone(m / 2, n / 2);
    }
  }

  ghost predicate RowDone(tab: seq<int>, n: nat, f: nat -> real, round: real -> int)
    requires n < |tab|
  {
    n >= 1 ==> tab[n] == round(Extension(n, f) * 8192.0)
  }

  /** The run of one odd number through its doublings. */
  method FillDoublings(tab: array<int>, tmp: array<real>, idx: nat, f: nat -> real, round: real -> int)
    requires idx < tmp.Length && tab.Length == 2 * tmp.Length && Growing(f)
    requires tmp[idx] == Extension(OddAt(idx), f)
    modifies tab
    ensures forall n: nat :: n < tab.Length && (n == 0 || OddPart(n) != OddAt(idx)) ==> tab[n] == old(tab[n])
    ensures forall n: nat :: 1 <= n < tab.Length && OddPart(n) == OddAt(idx) ==> RowDone(tab[..], n, f, round)
  {
    hide Extension, RowDone;
    var cbrtVal := tmp[idx];
    var i := 2 * idx + 1;
    while i < tab.Length
      invariant i >= 1 && OddPart(i) == OddAt(idx) && cbrtVal == Extension(i, f)
      invariant forall n: nat :: n < tab.Length && (n == 0 || OddPart(n) != OddAt(idx)) ==> tab[n] == old(tab[n])
      invariant forall n: nat :: 1 <= n < tab.Length && n < i && OddPart(n) == OddAt(idx) ==>
                  RowDone(tab[..], n, f, round)
      decreases tab.Length - i
    {
      forall n: nat | 1 <= n < tab.Length && i <= n < 2 * i && OddPart(n) == OddAt(idx) ensures n == i {
        OddPartAlone(i, n);
      }
      ghost var before := tab[..];
      tab[i] := round(cbrtVal * 8192.0);
      RowsKept(before, tab[..], i, f, round);
      Doubling(i, f);
      cbrtVal := cbrtVal * f(2);
      i := i * 2;
    }
  }

  lemma RowsKept(before: seq<int>, after: seq<int>, i: nat, f: nat -> real, round: real -> int)
    requires 1 <= i < |before| && after == before[i := round(Extension(i, f) * 8192.0)]
    ensures RowDone(after, i, f, round)
    ensures forall n: nat :: n < |before| && RowDone(before, n, f, round) ==> RowDone(after, n, f, round)
  {
  }

  lemma Doubling(i: nat, f: nat -> real)
    requires i >= 1 && Growing(f)
    ensures Extension(2 * i, f) == Extension(i, f) * f(2)
    ensures OddPart(2 * i) == OddPart(i)
  {
    hide Extension;
    assert 2 * i / 2 == i;
    ExtensionProduct(i, 2, f);
    TwoIsPrime();
    ExtensionPrime(2, f);
  }

  lemma TwoIsPrime()
    ensures Prime(2)
  {
    forall d: nat {:trigger Divides(d, 2)} | Divides(d, 2) ensures d == 1 || d == 2 {
      DividesBound(d, 2);
    }
  }

  /** The whole table: entry n is the rounded extension of f at n. */
  method ComputeTable(half: nat, cut: nat, f: nat -> real, round: real -> int) returns (tab: array<int>)
    requires Growing(f) && 1 <= cut <= half && 2 * half <= OddAt(cut) * OddAt(cut)
    ensures fresh(tab) && tab.Length == 2 * half && tab[0] == 0
    ensures forall n: nat :: 1 <= n < tab.Length ==> tab[n] == round(Extension(n, f) * 8192.0)
  {
    hide Extension, RowDone;
    var tmp := new real[half];
    DblTableInit(tmp, f, cut);
    tab := new int[2 * half];
    var idx := half;
    while idx > 0
      invariant 0 <= idx <= half
      invariant forall n: nat :: 1 <= n < tab.Length && OddPart(n) >= OddAt(idx) ==> RowDone(tab[..], n, f, round)
      invariant forall x: nat :: x < half ==> tmp[x] == Extension(OddAt(x), f)
    {
      idx := idx - 1;
      ghost var before := tab[..];
      FillDoublings(tab, tmp, idx, f, round);
      OthersKept(before, tab[..], idx, f, round);
    }
    AllDone(tab[..], f, round);
    tab[0] := 0;
  }

  lemma OthersKept(before: seq<int>, after: seq<int>, idx: nat, f: nat -> real, round: real -> int)
    requires |before| == |after|
    requires forall n: nat :: n < |after| && (n == 0 || OddPart(n) != OddAt(idx)) ==> after[n] == before[n]
    requires forall n: nat :: 1 <= n < |after| && OddPart(n) >= OddAt(idx + 1) ==> RowDone(before, n, f, round)
    requires forall n: nat :: 1 <= n < |after| && OddPart(n) == OddAt(idx) ==> RowDone(after, n, f, round)
    ensures forall n: nat :: 1 <= n < |after| && OddPart(n) >= OddAt(idx) ==> RowDone(after, n, f, round)
  {
    hide Extension;
    forall n: nat | 1 <= n < |after| && OddPart(n) >= OddAt(idx) ensures RowDone(after, n, f, round) {
      if OddPart(n) != OddAt(idx) {
        assert OddPart(n) >= OddAt(idx + 1);
      }
    }
  }

  lemma AllDone(tab: seq<int>, f: nat -> real, round: real -> int)
    requires |tab| >= 1
    requires forall n: nat :: 1 <= n < |tab| && OddPart(n) >= OddAt(0) ==> RowDone(tab, n, f, round)
    ensures forall n: nat :: 1 <= n < |tab| ==> tab[n] == round(Extension(n, f) * 8192.0)
  {
    hide Extension;
    forall n: nat | 1 <= n < |tab| ensures tab[n] == round(Extension(n, f) * 8192.0) {
      assert RowDone(tab, n, f, round);
    }
  }
}
