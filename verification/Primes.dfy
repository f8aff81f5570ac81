/** Prime numbers, multiplicities and Euclid's lemma: what the cube-root table
    needs of number theory. */
module Primes {
  ghost predicate Divides(d: nat, n: nat) {
    exists k: nat :: n == d * k
  }

  ghost predicate Prime(p: nat) {
    p >= 2 && forall d: nat {:trigger Divides(d, p)} :: Divides(d, p) ==> d == 1 || d == p
  }

  /** How often p divides n. */
  ghost function Multiplicity(n: nat, p: nat): nat
    requires n >= 1 && p >= 2
  {
    if Divides(p, n) then 1 + Multiplicity(Quotient(n, p), p) else 0
  }

  ghost function Quotient(n: nat, d: nat): (k: nat)
    requires n >= 1 && Divides(d, n)
    ensures n == d * k && 1 <= k <= n
    ensures d >= 2 ==> k < n
  {
    var k: nat :| n == d * k;
    Positive(d, k);
    k
  }

  lemma Positive(d: nat, k: nat)
    requires d * k >= 1
    ensures d >= 1 && k >= 1 && k <= d * k && d <= d * k
    ensures d >= 2 ==> k < d * k
  {
    if k > 0 && d > 0 {
      assert d * k == k + (d - 1) * k;
      assert d * k == d + d * (k - 1);
      NonNegative(d - 1, k);
      NonNegative(d, k - 1);
      if d >= 2 {
        assert (d - 1) * k == k + (d - 2) * k;
        NonNegative(d - 2, k);
      }
    }
  }

  lemma NonNegative(a: nat, b: nat)
    ensures a * b >= 0
  {
  }

  lemma DividesProduct(d: nat, k: nat)
    ensures Divides(d, d * k) && Divides(k, d * k)
  {
    assert d * k == k * d;
  }

  lemma DividesBound(d: nat, n: nat)
    requires n >= 1 && Divides(d, n)
    ensures 1 <= d <= n
  {
    var k: nat :| n == d * k;
    Positive(d, k);
  }

  lemma DividesTransitive(a: nat, b: nat, c: nat)
    requires Divides(a, b) && Divides(b, c)
    ensures Divides(a, c)
  {
    var j: nat :| b == a * j;
    var k: nat :| c == b * k;
    assert c == a * (j * k);
  }

  lemma DividesSum(d: nat, a: nat, b: nat)
    requires Divides(d, a) && Divides(d, b)
    ensures Divides(d, a + b)
    ensures a >= b ==> Divides(d, a - b)
  {
    var j: nat :| a == d * j;
    var k: nat :| b == d * k;
    assert a + b == d * (j + k);
    if a >= b {
      if j < k {
        Less(d, j, k);
      } else {
        assert a - b == d * (j - k);
      }
    }
  }

  lemma Less(d: nat, j: nat, k: nat)
    requires j < k && d * j >= d * k
    ensures d * j == d * k == 0 && Divides(d, 0)
  {
    assert d * k == d * j + d * (k - j);
    if d > 0 {
      Positive(d, 1);
      assert d * (k - j) == d + d * (k - j - 1);
      NonNegative(d, k - j - 1);
    }
    assert 0 == d * 0;
  }

  /** A number with no prime factor below it is prime, and only such a number
      is: every divisor has a prime factor. */
  lemma {:induction false} PrimeFactor(n: nat)
    requires n >= 2
    ensures exists p: nat :: Prime(p) && Divides(p, n)
    decreases n
  {
    if Prime(n) {
      assert n == n * 1;
      assert Divides(n, n);
    } else {
      var d: nat :| Divides(d, n) && d != 1 && d != n;
      DividesBound(d, n);
      PrimeFactor(d);
      var p: nat :| Prime(p) && Divides(p, d);
      DividesTransitive(p, d, n);
    }
  }

  lemma SmallFactorOrPrime(n: nat)
    requires n >= 2
    ensures Prime(n) <==> forall p: nat {:trigger Prime(p)} :: Prime(p) && p < n ==> !Divides(p, n)
  {
    PrimeFactor(n);
    var p: nat :| Prime(p) && Divides(p, n);
    DividesBound(p, n);
  }

  // ----- Euclid's lemma

  /** p divides b whenever it divides a*b and not a: by induction on a, replacing
      a by p mod a, which divides no less of b. */
  lemma {:induction false} Euclid(p: nat, a: nat, b: nat)
    requires Prime(p) && Divides(p, a * b) && !Divides(p, a)
    ensures Divides(p, b)
    decreases a
  {
    AtLeastTwo(p);
    hide Prime, Divides;
    DividesZero(p);
    if a == 1 {
      assert a * b == b;
    } else if a >= p {
      EuclidMinus(p, a, b);
      Euclid(p, a - p, b);
    } else if a > 0 {
      EuclidRest(p, a, b);
      Euclid(p, p % a, b);
    }
  }

  lemma AtLeastTwo(p: nat)
    requires Prime(p)
    ensures p >= 2
  {
  }

  lemma DividesZero(p: nat)
    ensures Divides(p, 0)
  {
    assert 0 == p * 0;
  }

  lemma EuclidMinus(p: nat, a: nat, b: nat)
    requires a >= p && Divides(p, a * b) && !Divides(p, a)
    ensures Divides(p, (a - p) * b) && !Divides(p, a - p)
  {
    hide Divides;
    MinusTimes(a, p, b);
    DividesProduct(p, b);
    DividesSum(p, a * b, p * b);
    if Divides(p, a - p) {
      DividesSelf(p);
      DividesSum(p, a - p, p);
    }
  }

  lemma DividesSelf(p: nat)
    ensures Divides(p, p)
  {
    assert p == p * 1;
  }

  lemma EuclidRest(p: nat, a: nat, b: nat)
    requires Prime(p) && 1 < a < p && Divides(p, a * b)
    ensures Divides(p, (p % a) * b) && !Divides(p, p % a)
  {
    var r, q := p % a, p / a;
    assert p == q * a + r;
    NotMultiple(p, a, q, r);
    hide Divides;
    RestTimes(p, q, a, r, b);
    DividesMultiple(p, a * b, q);
    DividesProduct(p, b);
    DividesSum(p, p * b, q * (a * b));
    if Divides(p, r) {
      DividesBound(p, r);
    }
  }

  lemma NotMultiple(p: nat, a: nat, q: nat, r: nat)
    requires Prime(p) && 1 < a < p && p == q * a + r
    ensures r > 0
  {
    if p == q * a {
      DividesMultiple(a, a, q);
    }
  }

  lemma DividesMultiple(p: nat, n: nat, q: nat)
    requires Divides(p, n) || p == n
    ensures Divides(p, q * n)
  {
    DividesSelf(p);
    var k: nat :| n == p * k;
    assert q * n == p * (q * k);
  }

  lemma MinusTimes(a: nat, p: nat, b: nat)
    requires p <= a
    ensures (a - p) * b == a * b - p * b
    ensures p * b <= a * b
  {
    NonNegative(a - p, b);
  }

  lemma RestTimes(p: nat, q: nat, a: nat, r: nat, b: nat)
    requires p == q * a + r
    ensures r * b == p * b - q * (a * b)
    ensures q * (a * b) <= p * b
  {
    assert p * b == (q * a) * b + r * b;
    assert (q * a) * b == q * (a * b);
    NonNegative(r, b);
  }

  // ----- multiplicities

  lemma CancelLeft(d: nat, j: nat, k: nat)
    requires d >= 1 && d * j == d * k
    ensures j == k
  {
    if j < k {
      MulLess(d, j, k);
    } else if k < j {
      MulLess(d, k, j);
    }
  }

  lemma MulLess(d: nat, j: nat, k: nat)
    requires d >= 1 && j < k
    ensures d * j < d * k
  {
    assert d * k == d * j + d * (k - j);
    assert d * (k - j) == d + d * (k - j - 1);
    NonNegative(d, k - j - 1);
  }

  /** A prime divides a product as often as it divides the factors together. */
  lemma {:induction false} MultiplicityProduct(a: nat, b: nat, p: nat)
    requires a >= 1 && b >= 1 && Prime(p)
    ensures a * b >= 1
    ensures Multiplicity(a * b, p) == Multiplicity(a, p) + Multiplicity(b, p)
    decreases a
  {
    AtLeastTwo(p);
    hide Prime, Divides;
    AtLeastOne(a, b);
    if Divides(p, a) {
      var a' := Quotient(a, p);
      MultiplicityProduct(a', b, p);
      MultiplicityTimes(a' * b, p);
      Regroup(p, a', b);
    } else {
      MultiplicityRight(a, b, p);
    }
  }

  lemma Regroup(p: nat, a: nat, b: nat)
    ensures (p * a) * b == p * (a * b) == a * (p * b)
  {
  }

  lemma AtLeastOne(a: nat, b: nat)
    requires a >= 1 && b >= 1
    ensures a * b >= 1
  {
    assert a * b == b + (a - 1) * b;
    NonNegative(a - 1, b);
  }

  lemma MultiplicityTimes(n: nat, p: nat)
    requires n >= 1 && p >= 2
    ensures p * n >= 1 && Multiplicity(p * n, p) == 1 + Multiplicity(n, p)
  {
    AtLeastOne(p, n);
    DividesProduct(p, n);
    CancelLeft(p, n, Quotient(p * n, p));
  }

  lemma {:induction false} MultiplicityRight(a: nat, b: nat, p: nat)
    requires a >= 1 && b >= 1 && Prime(p) && !Divides(p, a)
    ensures a * b >= 1
    ensures Multiplicity(a * b, p) == Multiplicity(b, p)
    decreases b
  {
    AtLeastTwo(p);
    hide Prime, Divides;
    AtLeastOne(a, b);
    if Divides(p, b) {
      var b' := Quotient(b, p);
      MultiplicityRight(a, b', p);
      MultiplicityTimes(a * b', p);
      Regroup(p, a, b');
    } else if Divides(p, a * b) {
      Euclid(p, a, b);
    }
  }

  lemma MultiplicityLarge(n: nat, p: nat)
    requires 1 <= n < p && p >= 2
    ensures Multiplicity(n, p) == 0
  {
    if Divides(p, n) {
      DividesBound(p, n);
    }
  }

  lemma MultiplicityOfPrime(q: nat, p: nat)
    requires Prime(q) && Prime(p)
    ensures Multiplicity(q, p) == if p == q then 1 else 0
  {
    if p == q {
      assert q == q * 1;
      MultiplicityTimes(1, q);
      MultiplicityLarge(1, q);
    }
  }
}
