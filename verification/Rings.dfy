/** Commutative rings as values: the operations, the laws they are to obey, and
    what follows from the laws. */
module Rings {
  datatype Ring<!T> = Ring(zero: T, one: T, add: (T, T) -> T, neg: T -> T, mul: (T, T) -> T) {
    function Sub(a: T, b: T): T {
      add(a, neg(b))
    }
  }

  /** The laws of a commutative ring at three elements. */
  ghost predicate LawsAt<T(!new)>(ring: Ring<T>, a: T, b: T, c: T) {
    && ring.add(ring.add(a, b), c) == ring.add(a, ring.add(b, c))
    && ring.add(a, b) == ring.add(b, a)
    && ring.add(a, ring.zero) == a
    && ring.add(a, ring.neg(a)) == ring.zero
    && ring.mul(ring.mul(a, b), c) == ring.mul(a, ring.mul(b, c))
    && ring.mul(a, b) == ring.mul(b, a)
    && ring.mul(a, ring.one) == a
    && ring.mul(a, ring.add(b, c)) == ring.add(ring.mul(a, b), ring.mul(a, c))
  }

  ghost predicate Laws<T(!new)>(ring: Ring<T>) {
    forall a, b, c :: LawsAt(ring, a, b, c)
  }

  // ----- the laws, one at a time

  lemma AddAssoc<T(!new)>(ring: Ring<T>, a: T, b: T, c: T)
    requires Laws(ring)
    ensures ring.add(ring.add(a, b), c) == ring.add(a, ring.add(b, c))
  {
    assert LawsAt(ring, a, b, c);
  }

  lemma AddComm<T(!new)>(ring: Ring<T>, a: T, b: T)
    requires Laws(ring)
    ensures ring.add(a, b) == ring.add(b, a)
  {
    assert LawsAt(ring, a, b, a);
  }

  lemma AddZero<T(!new)>(ring: Ring<T>, a: T)
    requires Laws(ring)
    ensures ring.add(a, ring.zero) == a
  {
    assert LawsAt(ring, a, a, a);
  }

  lemma AddNeg<T(!new)>(ring: Ring<T>, a: T)
    requires Laws(ring)
    ensures ring.add(a, ring.neg(a)) == ring.zero
  {
    assert LawsAt(ring, a, a, a);
  }

  lemma MulAssoc<T(!new)>(ring: Ring<T>, a: T, b: T, c: T)
    requires Laws(ring)
    ensures ring.mul(ring.mul(a, b), c) == ring.mul(a, ring.mul(b, c))
  {
    assert LawsAt(ring, a, b, c);
  }

  lemma MulComm<T(!new)>(ring: Ring<T>, a: T, b: T)
    requires Laws(ring)
    ensures ring.mul(a, b) == ring.mul(b, a)
  {
    assert LawsAt(ring, a, b, a);
  }

  lemma MulOne<T(!new)>(ring: Ring<T>, a: T)
    requires Laws(ring)
    ensures ring.mul(ring.one, a) == a == ring.mul(a, ring.one)
  {
    assert LawsAt(ring, a, ring.one, a);
  }

  lemma MulAdd<T(!new)>(ring: Ring<T>, a: T, b: T, c: T)
    requires Laws(ring)
    ensures ring.mul(a, ring.add(b, c)) == ring.add(ring.mul(a, b), ring.mul(a, c))
  {
    assert LawsAt(ring, a, b, c);
  }

  // ----- what follows

  lemma Cancel<T(!new)>(ring: Ring<T>, a: T, x: T, y: T)
    requires Laws(ring) && ring.add(a, x) == ring.add(a, y)
    ensures x == y
  {
    hide Laws;
    Undo(ring, a, x);
    Undo(ring, a, y);
  }

  /** Adding and taking away again. */
  lemma Undo<T(!new)>(ring: Ring<T>, a: T, x: T)
    requires Laws(ring)
    ensures ring.add(ring.neg(a), ring.add(a, x)) == x
  {
    hide Laws;
    AddAssoc(ring, ring.neg(a), a, x);
    AddComm(ring, ring.neg(a), a);
    AddNeg(ring, a);
    AddComm(ring, ring.zero, x);
    AddZero(ring, x);
  }

  lemma MulZero<T(!new)>(ring: Ring<T>, a: T)
    requires Laws(ring)
    ensures ring.mul(a, ring.zero) == ring.zero
  {
    hide Laws;
    var p := ring.mul(a, ring.zero);
    AddZero(ring, ring.zero);
    MulAdd(ring, a, ring.zero, ring.zero);
    AddZero(ring, p);
    Cancel(ring, p, p, ring.zero);
  }

  lemma MulNeg<T(!new)>(ring: Ring<T>, z: T, p: T)
    requires Laws(ring)
    ensures ring.mul(ring.neg(z), p) == ring.neg(ring.mul(z, p))
  {
    hide Laws;
    var n := ring.neg(z);
    MulComm(ring, z, p);
    MulComm(ring, n, p);
    MulAdd(ring, p, z, n);
    AddNeg(ring, z);
    MulZero(ring, p);
    AddNeg(ring, ring.mul(z, p));
    Cancel(ring, ring.mul(z, p), ring.mul(n, p), ring.neg(ring.mul(z, p)));
  }

  lemma NegNeg<T(!new)>(ring: Ring<T>, a: T)
    requires Laws(ring)
    ensures ring.neg(ring.neg(a)) == a
  {
    hide Laws;
    var n := ring.neg(a);
    AddNeg(ring, n);
    AddComm(ring, n, a);
    AddNeg(ring, a);
    Cancel(ring, n, ring.neg(n), a);
  }

  lemma SquareOfNeg<T(!new)>(ring: Ring<T>, z: T)
    requires Laws(ring)
    ensures ring.mul(ring.neg(z), ring.neg(z)) == ring.mul(z, z)
  {
    hide Laws;
    var n := ring.neg(z);
    MulNeg(ring, z, n);
    MulComm(ring, z, n);
    MulNeg(ring, z, z);
    NegNeg(ring, ring.mul(z, z));
  }

  // ----- the complex numbers

  datatype Complex = Complex(re: real, im: real)

  function Add(a: Complex, b: Complex): Complex {
    Complex(a.re + b.re, a.im + b.im)
  }

  function Neg(a: Complex): Complex {
    Complex(-a.re, -a.im)
  }

  function Sub(a: Complex, b: Complex): Complex {
    Complex(a.re - b.re, a.im - b.im)
  }

  function Mul(a: Complex, b: Complex): Complex {
    Complex(a.re * b.re - a.im * b.im, a.re * b.im + a.im * b.re)
  }

  const COMPLEX: Ring<Complex> := Ring(Complex(0.0, 0.0), Complex(1.0, 0.0), Add, Neg, Mul)

  lemma ComplexOps(a: Complex, b: Complex)
    ensures COMPLEX.add(a, b) == Add(a, b) && COMPLEX.Sub(a, b) == Sub(a, b) && COMPLEX.mul(a, b) == Mul(a, b)
  {
  }

  lemma ComplexAssoc(a: Complex, b: Complex, c: Complex)
    ensures Mul(Mul(a, b), c) == Mul(a, Mul(b, c))
  {
    TimesSum(a.re * b.re, -(a.im * b.im), c.re);
    TimesSum(a.re * b.im, a.im * b.re, c.im);
    TimesSum(a.re * b.re, -(a.im * b.im), c.im);
    TimesSum(a.re * b.im, a.im * b.re, c.re);
    TimesSum(b.re * c.re, -(b.im * c.im), a.re);
    TimesSum(b.re * c.im, b.im * c.re, a.im);
    TimesSum(b.re * c.im, b.im * c.re, a.re);
    TimesSum(b.re * c.re, -(b.im * c.im), a.im);
  }

  lemma TimesSum(x: real, y: real, z: real)
    ensures (x + y) * z == x * z + y * z && z * (x + y) == z * x + z * y
  {
  }

  lemma ComplexDistributes(a: Complex, b: Complex, c: Complex)
    ensures Mul(a, Add(b, c)) == Add(Mul(a, b), Mul(a, c))
  {
  }

  lemma ComplexComm(a: Complex, b: Complex)
    ensures Mul(a, b) == Mul(b, a) && Mul(a, Complex(1.0, 0.0)) == a
  {
  }

  lemma ComplexAdd(a: Complex, b: Complex, c: Complex)
    ensures Add(Add(a, b), c) == Add(a, Add(b, c)) && Add(a, b) == Add(b, a)
    ensures Add(a, Complex(0.0, 0.0)) == a && Add(a, Neg(a)) == Complex(0.0, 0.0)
  {
  }

  /** They form a commutative ring. */
  lemma ComplexLaws()
    ensures Laws(COMPLEX)
  {
    forall a, b, c ensures LawsAt(COMPLEX, a, b, c) {
      hide Mul, Add, Neg;
      ComplexAssoc(a, b, c);
      ComplexDistributes(a, b, c);
      ComplexComm(a, b);
      ComplexAdd(a, b, c);
    }
  }
}
