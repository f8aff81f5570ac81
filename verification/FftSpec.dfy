/** The discrete Fourier transform as polynomial evaluation, over any commutative
    ring and any root W with W^(n/2) = -1, and the divide-and-conquer form that the
    in-place transform follows. */
module FftSpec {
  import opened BitStrings
  import opened Rings

  function Power<T(!new)>(ring: Ring<T>, w: T, k: nat): T {
    if k == 0 then ring.one else ring.mul(w, Power(ring, w, k - 1))
  }

  /** w squared n times. */
  function Squared<T(!new)>(ring: Ring<T>, w: T, n: nat): T
    decreases n
  {
    if n == 0 then w else Squared(ring, ring.mul(w, w), n - 1)
  }

  /** x[0] + x[1]*z + x[2]*z^2 + ... */
  function Poly<T(!new)>(ring: Ring<T>, x: seq<T>, z: T): T {
    if |x| == 0 then ring.zero else ring.add(x[0], ring.mul(z, Poly(ring, x[1..], z)))
  }

  /** Coefficient k of the transform of x with root w. */
  function Dft<T(!new)>(ring: Ring<T>, x: seq<T>, w: T, k: nat): T {
    Poly(ring, x, Power(ring, w, k))
  }

  function Even<T>(x: seq<T>): seq<T> {
    seq(|x| / 2, i requires 0 <= i < |x| / 2 => x[2 * i])
  }

  function Odd<T>(x: seq<T>): seq<T> {
    seq(|x| / 2, i requires 0 <= i < |x| / 2 => x[2 * i + 1])
  }

  /** One column of butterflies: a over b with twiddles w^0, w^1, ... */
  function Butterflies<T(!new)>(ring: Ring<T>, a: seq<T>, b: seq<T>, w: T): (r: seq<T>)
    requires |a| == |b|
    ensures |r| == 2 * |a|
  {
    seq(|a|, i requires 0 <= i < |a| => ring.add(a[i], ring.mul(Power(ring, w, i), b[i])))
    + seq(|a|, i requires 0 <= i < |a| => ring.Sub(a[i], ring.mul(Power(ring, w, i), b[i])))
  }

  /** The buffer when all blocks of 2^l are transformed: the blocks are the
      bit-reversed decimations of x. */
  function Blocks<T(!new)>(ring: Ring<T>, x: seq<T>, w: T, m: nat, l: nat): (r: seq<T>)
    requires |x| == Pow2(m)
    ensures |r| == |x|
    decreases m
  {
    if m == 0 then x
    else
      var e := Blocks(ring, Even(x), ring.mul(w, w), m - 1, l);
      var o := Blocks(ring, Odd(x), ring.mul(w, w), m - 1, l);
      if m <= l then Butterflies(ring, e, o, w) else e + o
  }

  lemma ButterflyAt<T(!new)>(ring: Ring<T>, a: seq<T>, b: seq<T>, w: T, i: nat)
    requires |a| == |b| && i < |a|
    ensures Butterflies(ring, a, b, w)[i] == ring.add(a[i], ring.mul(Power(ring, w, i), b[i]))
    ensures Butterflies(ring, a, b, w)[i + |a|] == ring.Sub(a[i], ring.mul(Power(ring, w, i), b[i]))
  {
    hide Power;
  }

  /** All blocks are whole: the buffer is one column of butterflies. */
  lemma BlocksWhole<T(!new)>(ring: Ring<T>, x: seq<T>, w: T, m: nat, l: nat)
    requires |x| == Pow2(m) && 0 < m <= l
    ensures Blocks(ring, x, w, m, l)
            == Butterflies(ring, Blocks(ring, Even(x), ring.mul(w, w), m - 1, m - 1),
                           Blocks(ring, Odd(x), ring.mul(w, w), m - 1, m - 1), w)
  {
    hide Butterflies;
    BlocksIrrelevantLimit(ring, Even(x), ring.mul(w, w), m - 1, l, m - 1);
    BlocksIrrelevantLimit(ring, Odd(x), ring.mul(w, w), m - 1, l, m - 1);
  }

  // ----- powers

  lemma {:induction false} PowerAdd<T(!new)>(ring: Ring<T>, w: T, a: nat, b: nat)
    requires Laws(ring)
    ensures Power(ring, w, a + b) == ring.mul(Power(ring, w, a), Power(ring, w, b))
  {
    hide Laws;
    if a == 0 {
      MulOne(ring, Power(ring, w, b));
    } else {
      PowerAdd(ring, w, a - 1, b);
      MulAssoc(ring, w, Power(ring, w, a - 1), Power(ring, w, b));
    }
  }

  lemma {:induction false} PowerDouble<T(!new)>(ring: Ring<T>, w: T, k: nat)
    requires Laws(ring)
    ensures Power(ring, w, 2 * k) == Power(ring, ring.mul(w, w), k)
    ensures ring.mul(Power(ring, w, k), Power(ring, w, k)) == Power(ring, ring.mul(w, w), k)
  {
    hide Laws;
    if k > 0 {
      PowerDouble(ring, w, k - 1);
      assert Power(ring, w, 2 * k) == ring.mul(w, Power(ring, w, 2 * k - 1));
      assert Power(ring, w, 2 * k - 1) == ring.mul(w, Power(ring, w, 2 * (k - 1)));
      MulAssoc(ring, w, w, Power(ring, w, 2 * (k - 1)));
    }
    PowerAdd(ring, w, k, k);
  }

  /** The twiddle j of a sub-transform is the twiddle j << a of the whole. */
  lemma {:induction false} PowerShift<T(!new)>(ring: Ring<T>, w: T, j: nat, a: nat)
    requires Laws(ring)
    ensures Power(ring, w, Shl(j, a)) == Power(ring, Squared(ring, w, a), j)
    decreases a
  {
    if a > 0 {
      PowerDouble(ring, w, Shl(j, a - 1));
      PowerShift(ring, ring.mul(w, w), j, a - 1);
    }
  }

  // ----- the split of a polynomial into even and odd terms

  lemma EvenOddTail<T>(x: seq<T>)
    requires |x| >= 2 && |x| % 2 == 0
    ensures Even(x) == [x[0]] + Even(x[2..])
    ensures Odd(x) == [x[1]] + Odd(x[2..])
  {
  }

  lemma SplitStep<T(!new)>(ring: Ring<T>, a: T, b: T, z: T, e: T, o: T)
    requires Laws(ring)
    ensures var q := ring.mul(z, z);
            ring.add(a, ring.mul(z, ring.add(b, ring.mul(z, ring.add(e, ring.mul(z, o))))))
            == ring.add(ring.add(a, ring.mul(q, e)), ring.mul(z, ring.add(b, ring.mul(q, o))))
  {
    hide Laws;
    var q := ring.mul(z, z);
    MulAdd(ring, z, e, ring.mul(z, o));
    MulAdd(ring, z, b, ring.mul(z, ring.add(e, ring.mul(z, o))));
    MulAdd(ring, z, ring.mul(z, e), ring.mul(z, ring.mul(z, o)));
    MulAdd(ring, z, b, ring.mul(q, o));
    MulAssoc(ring, z, z, e);
    MulAssoc(ring, z, z, o);
    var zb, qe, t := ring.mul(z, b), ring.mul(q, e), ring.mul(z, ring.mul(q, o));
    AddAssoc(ring, zb, qe, t);
    AddComm(ring, zb, qe);
    AddAssoc(ring, qe, zb, t);
    AddAssoc(ring, a, qe, ring.add(zb, t));
  }

  lemma {:induction false} PolySplit<T(!new)>(ring: Ring<T>, x: seq<T>, z: T)
    requires Laws(ring) && |x| % 2 == 0
    ensures Poly(ring, x, z) == ring.add(Poly(ring, Even(x), ring.mul(z, z)),
                                         ring.mul(z, Poly(ring, Odd(x), ring.mul(z, z))))
  {
    if |x| == 0 {
      assert Poly(ring, x, z) == ring.zero;
      MulZero(ring, z);
      AddZero(ring, ring.zero);
    } else {
      hide Laws;
      PolySplit(ring, x[2..], z);
      EvenOddTail(x);
      var q := ring.mul(z, z);
      var e, o := Poly(ring, Even(x[2..]), q), Poly(ring, Odd(x[2..]), q);
      assert x[1..][1..] == x[2..];
      assert Poly(ring, x[1..], z) == ring.add(x[1], ring.mul(z, Poly(ring, x[2..], z)));
      assert Even(x)[1..] == Even(x[2..]) && Odd(x)[1..] == Odd(x[2..]);
      assert Poly(ring, Even(x), q) == ring.add(x[0], ring.mul(q, e));
      assert Poly(ring, Odd(x), q) == ring.add(x[1], ring.mul(q, o));
      SplitStep(ring, x[0], x[1], z, e, o);
    }
  }

  /** The two outputs of a butterfly are the transform's coefficients. */
  lemma ButterflyIsDft<T(!new)>(ring: Ring<T>, x: seq<T>, w: T, k: nat)
    requires Laws(ring) && |x| >= 2 && |x| % 2 == 0 && Power(ring, w, |x| / 2) == ring.neg(ring.one)
    ensures var e, o := Dft(ring, Even(x), ring.mul(w, w), k), Dft(ring, Odd(x), ring.mul(w, w), k);
            && Dft(ring, x, w, k) == ring.add(e, ring.mul(Power(ring, w, k), o))
            && Dft(ring, x, w, |x| / 2 + k) == ring.Sub(e, ring.mul(Power(ring, w, k), o))
  {
    hide Laws;
    var z := Power(ring, w, k);
    PowerDouble(ring, w, k);
    PolySplit(ring, x, z);
    PowerAdd(ring, w, |x| / 2, k);
    MulNeg(ring, ring.one, z);
    MulOne(ring, z);
    PolySplit(ring, x, ring.neg(z));
    SquareOfNeg(ring, z);
    MulNeg(ring, z, Poly(ring, Odd(x), ring.mul(z, z)));
  }

  lemma DftOfOne<T(!new)>(ring: Ring<T>, x: seq<T>, w: T)
    requires Laws(ring) && |x| == 1
    ensures Dft(ring, x, w, 0) == x[0] && Blocks(ring, x, w, 0, 0) == x
  {
    assert x[1..] == [];
    assert Poly(ring, x, ring.one) == ring.add(x[0], ring.mul(ring.one, ring.zero));
    MulZero(ring, ring.one);
    AddZero(ring, x[0]);
  }

  /** The divide-and-conquer form computes the transform. */
  lemma {:induction false} BlocksAreDft<T(!new)>(ring: Ring<T>, x: seq<T>, w: T, m: nat, k: nat)
    requires Laws(ring) && |x| == Pow2(m) && k < |x|
    requires m > 0 ==> Power(ring, w, |x| / 2) == ring.neg(ring.one)
    ensures Blocks(ring, x, w, m, m)[k] == Dft(ring, x, w, k)
    decreases m
  {
    hide Laws, Poly, Power, Dft, Blocks, Butterflies, Even, Odd;
    if m == 0 {
      DftOfOne(ring, x, w);
    } else {
      HalvesSize(x);
      var h := |x| / 2;
      var v := ring.mul(w, w);
      if m > 1 {
        assert h == 2 * (h / 2);
        PowerDouble(ring, w, h / 2);
      }
      var j := if k < h then k else k - h;
      BlocksWhole(ring, x, w, m, m);
      ButterflyAt(ring, Blocks(ring, Even(x), v, m - 1, m - 1), Blocks(ring, Odd(x), v, m - 1, m - 1), w, j);
      BlocksAreDft(ring, Even(x), v, m - 1, j);
      BlocksAreDft(ring, Odd(x), v, m - 1, j);
      ButterflyIsDft(ring, x, w, j);
    }
  }

  lemma {:induction false} BlocksIrrelevantLimit<T(!new)>(ring: Ring<T>, x: seq<T>, w: T, m: nat, l: nat, l': nat)
    requires |x| == Pow2(m) && m <= l && m <= l'
    ensures Blocks(ring, x, w, m, l) == Blocks(ring, x, w, m, l')
    decreases m
  {
    if m > 0 {
      BlocksIrrelevantLimit(ring, Even(x), ring.mul(w, w), m - 1, l, l');
      BlocksIrrelevantLimit(ring, Odd(x), ring.mul(w, w), m - 1, l, l');
    }
  }

  // ----- one stage of the in-place transform

  lemma {:induction false} ShlPow2(m: nat, a: nat)
    ensures Shl(Pow2(m), a) == Pow2(m + a)
  {
    if a > 0 {
      ShlPow2(m, a - 1);
    }
  }

  lemma {:induction false} ShlSub(p: nat, q: nat, a: nat)
    requires p <= q
    ensures Shl(q - p, a) == Shl(q, a) - Shl(p, a)
  {
    if a > 0 {
      ShlSub(p, q, a - 1);
    }
  }

  lemma {:induction false} ShlGap(p: nat, q: nat, a: nat)
    requires p < q
    ensures Shl(p, a) + Pow2(a) <= Shl(q, a)
  {
    if a > 0 {
      ShlGap(p, q, a - 1);
    }
  }

  ghost predicate StageAt<T(!new)>(ring: Ring<T>, before: seq<T>, after: seq<T>, t: T, base: nat, h: nat, j: nat)
  {
    && j < h && base + 2 * h <= |before| == |after|
    && after[base + j] == ring.add(before[base + j], ring.mul(t, before[base + j + h]))
    && after[base + j + h] == ring.Sub(before[base + j], ring.mul(t, before[base + j + h]))
  }

  lemma BlocksSplit<T(!new)>(ring: Ring<T>, x: seq<T>, w: T, m: nat, l: nat)
    requires |x| == Pow2(m) && l < m
    ensures Blocks(ring, x, w, m, l)
            == Blocks(ring, Even(x), ring.mul(w, w), m - 1, l) + Blocks(ring, Odd(x), ring.mul(w, w), m - 1, l)
  {
  }

  lemma StageBase<T(!new)>(ring: Ring<T>, x: seq<T>, w: T, l: nat, j: nat)
    requires |x| == Pow2(l + 1) && j < Pow2(l)
    ensures StageAt(ring, Blocks(ring, x, w, l + 1, l), Blocks(ring, x, w, l + 1, l + 1), Power(ring, w, j), 0, Pow2(l),
                    j)
  {
    hide Power, Blocks, Butterflies, Even, Odd;
    HalvesSize(x);
    var v := ring.mul(w, w);
    BlocksSplit(ring, x, w, l + 1, l);
    BlocksWhole(ring, x, w, l + 1, l + 1);
    ButterflyAt(ring, Blocks(ring, Even(x), v, l, l), Blocks(ring, Odd(x), v, l, l), w, j);
  }

  lemma StageLeft<T(!new)>(ring: Ring<T>, b: seq<T>, b': seq<T>, c: seq<T>, c': seq<T>,
                  t: T, base: nat, h: nat, j: nat)
    requires StageAt(ring, b, b', t, base, h, j) && |c| == |c'|
    ensures StageAt(ring, b + c, b' + c', t, base, h, j)
  {
  }

  lemma StageRight<T(!new)>(ring: Ring<T>, b: seq<T>, b': seq<T>, c: seq<T>, c': seq<T>,
                   t: T, base: nat, h: nat, j: nat)
    requires StageAt(ring, b, b', t, base, h, j) && |c| == |c'|
    ensures StageAt(ring, c + b, c' + b', t, |c| + base, h, j)
  {
  }

  /** Block q of the buffer one stage later, in terms of the two blocks it is
      made of. */
  lemma {:induction false} StageStep<T(!new)>(ring: Ring<T>, x: seq<T>, w: T, m: nat, l: nat, q: nat, j: nat)
    requires |x| == Pow2(m) && l < m && q < Pow2(m - l - 1) && j < Pow2(l)
    ensures StageAt(ring, Blocks(ring, x, w, m, l), Blocks(ring, x, w, m, l + 1),
                    Power(ring, Squared(ring, w, m - l - 1), j),
                    Shl(q, l + 1), Pow2(l), j)
    decreases m
  {
    hide Power, Blocks, StageAt, Even, Odd;
    if m == l + 1 {
      StageBase(ring, x, w, l, j);
      ShlZero(l + 1);
    } else {
      var v := ring.mul(w, w);
      var c := Pow2(m - l - 2);
      ShlPow2(m - l - 2, l + 1);
      BlocksSplit(ring, x, w, m, l);
      BlocksSplit(ring, x, w, m, l + 1);
      HalvesSize(x);
      var be, bo := Blocks(ring, Even(x), v, m - 1, l), Blocks(ring, Odd(x), v, m - 1, l);
      var be', bo' := Blocks(ring, Even(x), v, m - 1, l + 1), Blocks(ring, Odd(x), v, m - 1, l + 1);
      var t := Power(ring, Squared(ring, v, m - l - 2), j);
      if q < c {
        StageStep(ring, Even(x), v, m - 1, l, q, j);
        StageLeft(ring, be, be', bo, bo', t, Shl(q, l + 1), Pow2(l), j);
      } else {
        StageStep(ring, Odd(x), v, m - 1, l, q - c, j);
        StageRight(ring, bo, bo', be, be', t, Shl(q - c, l + 1), Pow2(l), j);
        ShlSub(c, q, l + 1);
      }
    }
  }

  lemma HalvesSize<T>(x: seq<T>)
    ensures |Even(x)| == |Odd(x)| == |x| / 2
  {
  }

  lemma {:induction false} ShlZero(a: nat)
    ensures Shl(0, a) == 0
  {
    if a > 0 {
      ShlZero(a - 1);
    }
  }

  // ----- bit reversal

  /** The reversal of the low m bits of i. */
  function Reverse(i: nat, m: nat): (r: nat)
    ensures r < Pow2(m)
  {
    if m == 0 then 0 else 2 * Reverse(i, m - 1) + Shr(i, m - 1) % 2
  }

  lemma {:induction false} ReverseEnds(u: nat, m: nat)
    ensures Reverse(u, m + 1) == (if u % 2 == 1 then Pow2(m) else 0) + Reverse(u / 2, m)
  {
    if m > 0 {
      ReverseEnds(u, m - 1);
      assert Shr(u, m) == Shr(u / 2, m - 1);
    }
  }

  lemma {:induction false} ShrAbove(i: nat, m: nat, t: nat)
    requires t < m
    ensures Shr(i + Pow2(m), t) == Shr(i, t) + Pow2(m - t)
  {
    if t > 0 {
      assert (i + Pow2(m)) / 2 == i / 2 + Pow2(m - 1);
      ShrAbove(i / 2, m - 1, t - 1);
    }
  }

  lemma {:induction false} ReverseAbove(i: nat, m: nat, t: nat)
    requires t <= m
    ensures Reverse(i + Pow2(m), t) == Reverse(i, t)
  {
    hide Reverse, Shr;
    ReverseStep(i, t);
    ReverseStep(i + Pow2(m), t);
    if t > 0 {
      ReverseAbove(i, m, t - 1);
      ShrAbove(i, m, t - 1);
      assert Pow2(m - (t - 1)) == 2 * Pow2(m - t);
    }
  }

  lemma {:induction false} TopBit(i: nat, m: nat)
    requires i < Pow2(m + 1)
    ensures Shr(i, m) == if i < Pow2(m) then 0 else 1
  {
    if m > 0 {
      TopBit(i / 2, m - 1);
    }
  }

  /** Reversing twice is the identity, so the swaps are a permutation. */
  lemma {:induction false} ReverseTwice(i: nat, m: nat)
    requires i < Pow2(m)
    ensures Reverse(Reverse(i, m), m) == i
  {
    hide Reverse;
    ReverseStep(i, m);
    if m > 0 {
      var low := if i < Pow2(m - 1) then i else i - Pow2(m - 1);
      TopBit(i, m - 1);
      if i >= Pow2(m - 1) {
        ReverseAbove(low, m - 1, m - 1);
      }
      ReverseTwice(low, m - 1);
      ReverseEnds(Reverse(i, m), m - 1);
    } else {
      ReverseStep(Reverse(i, m), m);
    }
  }

  lemma ReverseStep(i: nat, m: nat)
    ensures Reverse(i, m) == if m == 0 then 0 else 2 * Reverse(i, m - 1) + Shr(i, m - 1) % 2
  {
  }

  lemma HalvesAt<T>(x: seq<T>, i: nat)
    requires i < |x| / 2
    ensures Even(x)[i] == x[2 * i] && Odd(x)[i] == x[2 * i + 1]
  {
  }

  lemma BlocksOne<T(!new)>(ring: Ring<T>, x: seq<T>, w: T)
    requires |x| == Pow2(0)
    ensures Blocks(ring, x, w, 0, 0) == x && |x| == 1
  {
  }

  /** Blocks of one sample: the bit-reversed input. */
  lemma {:induction false} BlocksStart<T(!new)>(ring: Ring<T>, x: seq<T>, w: T, m: nat, i: nat)
    requires |x| == Pow2(m) && i < |x|
    ensures Blocks(ring, x, w, m, 0)[i] == x[Reverse(i, m)]
    decreases m
  {
    hide Reverse, Blocks, Even, Odd, Shr;
    ReverseStep(i, m);
    if m == 0 {
      BlocksOne(ring, x, w);
    } else {
      TopBit(i, m - 1);
      BlocksSplit(ring, x, w, m, 0);
      HalvesSize(x);
      var h := Pow2(m - 1);
      if i < h {
        BlocksStart(ring, Even(x), ring.mul(w, w), m - 1, i);
        HalvesAt(x, Reverse(i, m - 1));
      } else {
        BlocksStart(ring, Odd(x), ring.mul(w, w), m - 1, i - h);
        ReverseAbove(i - h, m - 1, m - 1);
        HalvesAt(x, Reverse(i - h, m - 1));
      }
    }
  }

  // ----- the transform as a sum over powers of the root

  function Term<T(!new)>(ring: Ring<T>, x: seq<T>, w: T, k: nat, j: nat): T
    requires j < |x|
  {
    ring.mul(x[j], Power(ring, w, j * k))
  }

  /** The sum of x[i] * w^(i*k) over i in [j, |x|). */
  function TermSum<T(!new)>(ring: Ring<T>, x: seq<T>, w: T, k: nat, j: nat): T
    requires j <= |x|
    decreases |x| - j
  {
    if j == |x| then ring.zero else ring.add(Term(ring, x, w, k, j), TermSum(ring, x, w, k, j + 1))
  }

  lemma PowerNext<T(!new)>(ring: Ring<T>, w: T, j: nat, k: nat)
    requires Laws(ring)
    ensures Power(ring, w, (j + 1) * k) == ring.mul(Power(ring, w, j * k), Power(ring, w, k))
  {
    hide Laws, Power;
    assert (j + 1) * k == j * k + k;
    PowerAdd(ring, w, j * k, k);
  }

  lemma PolyFrom<T(!new)>(ring: Ring<T>, x: seq<T>, j: nat, z: T)
    requires j < |x|
    ensures Poly(ring, x[j..], z) == ring.add(x[j], ring.mul(z, Poly(ring, x[j + 1..], z)))
  {
    assert x[j..][1..] == x[j + 1..];
  }

  lemma TermSumStep<T(!new)>(ring: Ring<T>, x: seq<T>, w: T, k: nat, j: nat)
    requires j <= |x|
    ensures TermSum(ring, x, w, k, j)
            == if j == |x| then ring.zero else ring.add(ring.mul(x[j], Power(ring, w, j * k)),
                                                        TermSum(ring, x, w, k, j + 1))
  {
    hide Power;
  }

  lemma PolyEnd<T(!new)>(ring: Ring<T>, x: seq<T>, z: T)
    ensures Poly(ring, x[|x|..], z) == ring.zero
  {
  }

  lemma Pull<T(!new)>(ring: Ring<T>, a: T, z: T, t: T, p: T)
    requires Laws(ring)
    ensures ring.add(ring.mul(a, t), ring.mul(ring.mul(t, z), p)) == ring.mul(t, ring.add(a, ring.mul(z, p)))
  {
    hide Laws;
    MulAdd(ring, t, a, ring.mul(z, p));
    MulAssoc(ring, t, z, p);
    MulComm(ring, t, a);
  }

  lemma {:induction false} DftSumFrom<T(!new)>(ring: Ring<T>, x: seq<T>, w: T, k: nat, j: nat)
    requires Laws(ring)
    requires j <= |x|
    ensures TermSum(ring, x, w, k, j) == ring.mul(Power(ring, w, j * k), Poly(ring, x[j..], Power(ring, w, k)))
    decreases |x| - j
  {
    hide Laws, Power, Poly, TermSum;
    TermSumStep(ring, x, w, k, j);
    if j == |x| {
      PolyEnd(ring, x, Power(ring, w, k));
      MulZero(ring, Power(ring, w, j * k));
    } else {
      DftSumFrom(ring, x, w, k, j + 1);
      PowerNext(ring, w, j, k);
      PolyFrom(ring, x, j, Power(ring, w, k));
      Pull(ring, x[j], Power(ring, w, k), Power(ring, w, j * k), Poly(ring, x[j + 1..], Power(ring, w, k)));
    }
  }

  /** Dft is the transform of its textbook definition. */
  lemma DftIsTheSum<T(!new)>(ring: Ring<T>, x: seq<T>, w: T, k: nat)
    requires Laws(ring)
    ensures Dft(ring, x, w, k) == TermSum(ring, x, w, k, 0)
  {
    hide Laws, Poly, Power;
    DftSumFrom(ring, x, w, k, 0);
    assert 0 * k == 0 && x[0..] == x;
    PowerZero(ring, w);
    MulOne(ring, Poly(ring, x, Power(ring, w, k)));
  }

  lemma PowerZero<T(!new)>(ring: Ring<T>, w: T)
    ensures Power(ring, w, 0) == ring.one
  {
  }
}
