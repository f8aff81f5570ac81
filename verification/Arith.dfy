/** The few nonlinear facts the other modules need, each proved once. */
module Arith {
  lemma MulSucc(a: int, d: int)
    ensures (a + 1) * d == a * d + d
  {
  }

  lemma {:induction false} MulStep(a: nat, b: nat, d: nat)
    requires a < b
    ensures a * d + d <= b * d
  {
    MulSucc(b - 1, d);
    if a < b - 1 {
      MulStep(a, b - 1, d);
    }
  }

  lemma MulAssoc(a: int, b: int, c: int)
    ensures (a * b) * c == a * (b * c)
  {
  }

  lemma DivModUnique(v: nat, d: nat, q: nat, r: nat)
    requires r < d && v == q * d + r
    ensures v / d == q && v % d == r
  {
    var q', r' := v / d, v % d;
    assert v == q' * d + r' && r' < d;
    if q' < q {
      MulStep(q', q, d);
    } else if q' > q {
      MulStep(q, q', d);
    }
  }

  /** Dividing by a product is dividing twice, and the remainders line up. */
  lemma DivMod(v: nat, a: nat, b: nat)
    requires a >= 1 && b >= 1
    ensures a * b >= 1
    ensures v / (a * b) == (v / a) / b
    ensures v % (a * b) == ((v / a) % b) * a + v % a
  {
    var q, r := v / a, v % a;
    var q2, r2 := q / b, q % b;
    assert v == q * a + r && q == q2 * b + r2;
    MulStep(r2, b, a);
    DivModParts(v, a, b, q, r, q2, r2);
  }

  lemma DivModParts(v: nat, a: nat, b: nat, q: nat, r: nat, q2: nat, r2: nat)
    requires v == q * a + r && r < a && q == q2 * b + r2
    requires r2 * a + a <= b * a
    ensures a * b >= 1
    ensures v / (a * b) == q2 && v % (a * b) == r2 * a + r
  {
    assert q * a == q2 * (a * b) + r2 * a by {
      calc {
        q * a;
        (q2 * b + r2) * a;
        (q2 * b) * a + r2 * a;
        { MulAssoc(q2, b, a); }
        q2 * (b * a) + r2 * a;
      }
    }
    DivModUnique(v, a * b, q2, r2 * a + r);
  }

  lemma MulDouble(x: int, p: int)
    ensures x * (2 * p) == 2 * (x * p)
  {
  }
}
