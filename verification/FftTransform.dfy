/** The in-place radix-2 transform: bit-reversal swaps, then log2(n) stages of
    butterflies over a precomputed twiddle table. */
module FftTransform {
  import opened BitStrings
  import opened Rings
  import opened FftSpec

  ghost function Signal(re: array<real>, im: array<real>): (x: seq<Complex>)
    requires re.Length == im.Length
    reads re, im
    ensures |x| == re.Length
  {
    seq(re.Length, i requires 0 <= i < re.Length && re.Length == im.Length reads re, im => Complex(re[i], im[i]))
  }

  lemma {:induction false} ShrPow2(m: nat, t: nat)
    requires t <= m
    ensures Shr(Pow2(m), t) == Pow2(m - t)
    decreases t
  {
    if t > 0 {
      assert Pow2(m) / 2 == Pow2(m - 1);
      ShrPow2(m - 1, t - 1);
    }
  }

  lemma Pow2Quotient(m: nat, t: nat)
    requires t <= m
    ensures Pow2(m) / Pow2(t) == Pow2(m - t)
  {
    ShrDivides(Pow2(m), t);
    ShrPow2(m, t);
  }

  lemma {:induction false} Pow2Order(a: nat, b: nat)
    ensures Pow2(a) <= Pow2(b) <==> a <= b
  {
    if a <= b {
      Pow2Monotone(a, b);
    } else {
      Pow2Monotone(b + 1, a);
    }
  }

  class Fft {
    const n: nat
    const rev: array<nat>
    const cos: array<real>
    const sin: array<real>
    ghost const m: nat
    ghost const root: Complex

    ghost predicate Valid()
      reads rev, cos, sin
    {
      && n == Pow2(m) && rev.Length == n && cos.Length == sin.Length == n / 2
      && (m > 0 ==> Power(COMPLEX, root, n / 2) == COMPLEX.neg(COMPLEX.one))
      && (forall i: nat :: i < n ==> rev[i] == Reverse(i, m))
      && (forall k: nat :: k < n / 2 ==> Complex(cos[k], -sin[k]) == Power(COMPLEX, root, k))
    }

    /** cosine and sine are the tables of cos(2*pi*k/n) and sin(2*pi*k/n); all
        the transform needs of them is that (cosine, -sine) runs through the
        powers of a number whose (n/2)-th power is -1. */
    constructor (n: nat, cosine: seq<real>, sine: seq<real>, ghost m: nat, ghost root: Complex)
      requires n == Pow2(m) && |cosine| == |sine| == n / 2
      requires m > 0 ==> Power(COMPLEX, root, n / 2) == COMPLEX.neg(COMPLEX.one)
      requires forall k: nat :: k < n / 2 ==> Complex(cosine[k], -sine[k]) == Power(COMPLEX, root, k)
      ensures Valid() && this.n == n && this.m == m && this.root == root
      ensures fresh(rev) && fresh(cos) && fresh(sin)
    {
      this.n, this.m, this.root := n, m, root;
      rev := new nat[n];
      cos := new real[n / 2];
      sin := new real[n / 2];
      new;
      hide Power, Mul;
      var i := 0;
      while i < n
        invariant 0 <= i <= n
        invariant forall j: nat :: j < i ==> rev[j] == Reverse(j, m)
      {
        var r := ReverseBits(i, n, m);
        rev[i] := r;
        i := i + 1;
      }
      var k := 0;
      while k < n / 2
        invariant 0 <= k <= n / 2
        invariant forall i: nat :: i < n ==> rev[i] == Reverse(i, m)
        invariant forall j: nat :: j < k ==> cos[j] == cosine[j] && sin[j] == sine[j]
      {
        cos[k] := cosine[k];
        sin[k] := sine[k];
        k := k + 1;
      }
    }

    static method ReverseBits(i: nat, n: nat, ghost m: nat) returns (r: nat)
      requires n == Pow2(m)
      ensures r == Reverse(i, m)
    {
      hide Reverse, Shr;
      r := 0;
      var b := 1;
      ghost var t: nat := 0;
      ReverseStep(i, 0);
      while b < n
        invariant t <= m && b == Pow2(t) && r == Reverse(i, t)
        decreases m - t
      {
        Pow2Order(m, t);
        ShrDivides(i, t);
        ReverseStep(i, t + 1);
        r := 2 * r;
        if i / b % 2 != 0 {
          r := r + 1;
        }
        b := 2 * b;
        t := t + 1;
      }
      Pow2Order(m, t);
    }

    /** Swaps each sample with the one at its reversed index, once. */
    method Permute(re: array<real>, im: array<real>)
      requires Valid() && re != im && re.Length == im.Length == n
      requires re !in {cos, sin} && im !in {cos, sin}
      modifies re, im
      ensures Signal(re, im) == Blocks(COMPLEX, old(Signal(re, im)), root, m, 0)
    {
      hide Reverse, Power, Mul, Blocks;
      ghost var x := Signal(re, im);
      var i := 0;
      while i < n
        invariant 0 <= i <= n
        invariant forall k: nat :: k < n ==>
                    var s := if k < i || rev[k] < i then rev[k] else k;
                    Swapped(re, im, x, k, s)
      {
        var r := rev[i];
        ReverseTwice(i, m);
        assert rev[r] == i;
        OthersStay(i);
        if r > i {
          re[i], re[r] := re[r], re[i];
          im[i], im[r] := im[r], im[i];
        }
        i := i + 1;
      }
      forall k: nat | k < n ensures Signal(re, im)[k] == Blocks(COMPLEX, x, root, m, 0)[k] {
        BlocksStart(COMPLEX, x, root, m, k);
        assert Swapped(re, im, x, k, rev[k]);
      }
    }

    ghost predicate Swapped(re: array<real>, im: array<real>, x: seq<Complex>, k: nat, s: nat)
      reads re, im
    {
      k < re.Length && k < im.Length && s < |x| && re[k] == x[s].re && im[k] == x[s].im
    }

    /** The table is injective, so no other index is sent to i. */
    lemma OthersStay(i: nat)
      requires Valid() && i < n
      ensures forall k: nat :: k < n && rev[k] == i ==> k == rev[i]
    {
      hide Power, Mul, Reverse;
      forall k: nat | k < n && rev[k] == i ensures k == rev[i] {
        ReverseTwice(k, m);
      }
    }

    static method Butterfly(re: array<real>, im: array<real>, i0: nat, i1: nat, wr: real, wi: real)
      requires re != im && re.Length == im.Length && i0 < re.Length && i1 < re.Length && i0 != i1
      modifies re, im
      ensures var x := old(Signal(re, im));
              var t := Mul(Complex(wr, wi), x[i1]);
              Signal(re, im) == x[i0 := Add(x[i0], t)][i1 := Sub(x[i0], t)]
    {
      ghost var now := Signal(re, im);
      var tr := re[i1] * wr - im[i1] * wi;
      var ti := re[i1] * wi + im[i1] * wr;
      ghost var u := Complex(re[i0], im[i0]);
      ghost var t := Mul(Complex(wr, wi), Complex(re[i1], im[i1]));
      TwiddleProduct(wr, wi, re[i1], im[i1]);
      assert t == Complex(tr, ti);
      re[i1], im[i1] := re[i0] - tr, im[i0] - ti;
      re[i0], im[i0] := re[i0] + tr, im[i0] + ti;
      Sums(u, t);
      assert Signal(re, im) == now[i0 := Add(u, t)][i1 := Sub(u, t)];
    }

    /** The buffer with the first j butterflies of a block done. */
    static ghost function Mixed(was: seq<Complex>, after: seq<Complex>, base: nat, half: nat, j: nat): (r: seq<Complex>)
      requires |was| == |after|
      ensures |r| == |was|
    {
      seq(|was|, i requires 0 <= i < |was| && |was| == |after| =>
        if base <= i < base + j || base + half <= i < base + half + j then after[i] else was[i])
    }

    static lemma MixedStep(was: seq<Complex>, after: seq<Complex>, t: Complex, base: nat, half: nat, j: nat)
      requires StageAt(COMPLEX, was, after, t, base, half, j)
      ensures var x := Mixed(was, after, base, half, j);
              var (i0, i1) := (base + j, base + j + half);
              var p := Mul(t, x[i1]);
              Mixed(was, after, base, half, j + 1) == x[i0 := Add(x[i0], p)][i1 := Sub(x[i0], p)]
    {
      ComplexOps(t, was[base + j + half]);
      ComplexOps(was[base + j], Mul(t, was[base + j + half]));
      hide Mul, Add, Sub;
    }

    /** The butterflies of the block starting at base. */
    method Block(re: array<real>, im: array<real>, size: nat, base: nat,
                 ghost x: seq<Complex>, ghost l: nat, ghost q: nat)
      requires Valid() && re != im && re.Length == im.Length == n == |x|
      requires re !in {cos, sin} && im !in {cos, sin}
      requires l < m && size == Pow2(l + 1) && q < Pow2(m - l - 1) && base == Shl(q, l + 1)
      requires base + size <= n
      requires forall i: nat :: base <= i < n ==> Signal(re, im)[i] == Blocks(COMPLEX, x, root, m, l)[i]
      modifies re, im
      ensures Signal(re, im) == Mixed(old(Signal(re, im)), Blocks(COMPLEX, x, root, m, l + 1), base, Pow2(l), Pow2(l))
    {
      hide Blocks, Power, Mul, Add, Sub, Shl, Reverse, Squared, Mixed, StageAt;
      var half, step := size / 2, n / size;
      Pow2Quotient(m, l + 1);
      var j := 0;
      ghost var was := Signal(re, im);
      ghost var after := Blocks(COMPLEX, x, root, m, l + 1);
      MixedStart(was, after, base, half);
      while j < half
        invariant 0 <= j <= half
        invariant Signal(re, im) == Mixed(was, after, base, half, j)
      {
        StageStep(COMPLEX, x, root, m, l, q, j);
        StageFrom(Blocks(COMPLEX, x, root, m, l), was, after, Power(COMPLEX, Squared(COMPLEX, root, m - l - 1), j),
                  base, half, j);
        Pair(re, im, base, half, step, j, was, after, l);
        j := j + 1;
      }
    }

    /** Butterfly j of a block. */
    method Pair(re: array<real>, im: array<real>, base: nat, half: nat, step: nat, j: nat,
                ghost was: seq<Complex>, ghost after: seq<Complex>, ghost l: nat)
      requires Valid() && re != im && re.Length == im.Length == n == |was| == |after| && l < m && j < half == Pow2(l)
      requires re !in {cos, sin} && im !in {cos, sin} && step == Pow2(m - l - 1)
      requires StageAt(COMPLEX, was, after, Power(COMPLEX, Squared(COMPLEX, root, m - l - 1), j), base, half, j)
      requires Signal(re, im) == Mixed(was, after, base, half, j)
      modifies re, im
      ensures Signal(re, im) == Mixed(was, after, base, half, j + 1)
    {
      hide Blocks, Power, Mul, Add, Sub, Reverse, Squared, Mixed;
      var k := j * step;
      TwiddleIndex(j, l);
      var wr, wi := cos[k], -sin[k];
      MixedStep(was, after, Complex(wr, wi), base, half, j);
      Butterfly(re, im, base + j, base + j + half, wr, wi);
    }

    static lemma StageFrom(b: seq<Complex>, was: seq<Complex>, after: seq<Complex>, t: Complex, base: nat, half: nat,
                           j: nat)
      requires StageAt(COMPLEX, b, after, t, base, half, j) && |was| == |b|
      requires forall i: nat :: base <= i < |b| ==> was[i] == b[i]
      ensures StageAt(COMPLEX, was, after, t, base, half, j)
    {
    }

    static lemma MixedStart(was: seq<Complex>, after: seq<Complex>, base: nat, half: nat)
      requires |was| == |after|
      ensures Mixed(was, after, base, half, 0) == was
    {
    }

    static lemma TwiddleProduct(wr: real, wi: real, a: real, b: real)
      ensures Mul(Complex(wr, wi), Complex(a, b)) == Complex(a * wr - b * wi, a * wi + b * wr)
    {
    }

    static lemma Sums(u: Complex, v: Complex)
      ensures Add(u, v) == Complex(u.re + v.re, u.im + v.im)
      ensures Sub(u, v) == Complex(u.re - v.re, u.im - v.im)
    {
    }

    lemma TwiddleIndex(j: nat, l: nat)
      requires Valid() && l < m && j < Pow2(l)
      ensures n / Pow2(l + 1) == Pow2(m - l - 1)
      ensures var k := j * Pow2(m - l - 1);
              k < n / 2 && Complex(cos[k], -sin[k]) == Power(COMPLEX, Squared(COMPLEX, root, m - l - 1), j)
    {
      hide Power, Mul, Squared, Reverse;
      var a := m - l - 1;
      Pow2Quotient(m, l + 1);
      ShlTimes(j, a);
      ShlGap(j, Pow2(l), a);
      ShlPow2(l, a);
      ComplexLaws();
      PowerShift(COMPLEX, root, j, a);
    }

    /** One stage: every pair of neighbouring blocks becomes one. */
    method Stage(re: array<real>, im: array<real>, size: nat, ghost x: seq<Complex>, ghost l: nat)
      requires Valid() && re != im && re.Length == im.Length == n == |x|
      requires re !in {cos, sin} && im !in {cos, sin}
      requires l < m && size == Pow2(l + 1)
      requires Signal(re, im) == Blocks(COMPLEX, x, root, m, l)
      modifies re, im
      ensures Signal(re, im) == Blocks(COMPLEX, x, root, m, l + 1)
    {
      hide Blocks, Power, Mul, Shl, Reverse;
      var base := 0;
      ghost var q: nat := 0;
      ghost var total := Pow2(m - l - 1);
      ShlPow2(m - l - 1, l + 1);
      ShlZero(l + 1);
      Pow2Monotone(l + 1, m);
      while base < n
        invariant q <= total && base == Shl(q, l + 1) <= n
        invariant forall i: nat :: i < base ==> Signal(re, im)[i] == Blocks(COMPLEX, x, root, m, l + 1)[i]
        invariant forall i: nat :: base <= i < n ==> Signal(re, im)[i] == Blocks(COMPLEX, x, root, m, l)[i]
        decreases n - base
      {
        if q == total {
          assert false;
        }
        ShlGap(q, total, l + 1);
        Block(re, im, size, base, x, l, q);
        ShlNext(q, l + 1);
        base := base + size;
        q := q + 1;
      }
    }

    static lemma {:induction false} ShlNext(q: nat, a: nat)
      ensures Shl(q + 1, a) == Shl(q, a) + Pow2(a)
    {
      if a > 0 {
        ShlNext(q, a - 1);
      }
    }

    /** The transform leaves the discrete Fourier transform of its input in the
        buffers. */
    method Transform(re: array<real>, im: array<real>)
      requires Valid() && re != im && re.Length == im.Length == n
      requires re !in {cos, sin} && im !in {cos, sin}
      modifies re, im
      ensures forall k: nat :: k < n ==> Signal(re, im)[k] == TermSum(COMPLEX, old(Signal(re, im)), root, k, 0)
    {
      hide Blocks, Power, Mul, Reverse, Term, TermSum, Poly, Dft;
      ghost var x := Signal(re, im);
      Permute(re, im);
      var size := 2;
      ghost var l: nat := 0;
      while size <= n
        invariant l <= m && size == Pow2(l + 1)
        invariant Signal(re, im) == Blocks(COMPLEX, x, root, m, l)
        decreases m - l
      {
        Pow2Order(l + 1, m);
        Stage(re, im, size, x, l);
        size := size * 2;
        l := l + 1;
      }
      Pow2Order(l + 1, m);
      ComplexLaws();
      forall k: nat | k < n ensures Signal(re, im)[k] == TermSum(COMPLEX, x, root, k, 0) {
        BlocksAreDft(COMPLEX, x, root, m, k);
        DftIsTheSum(COMPLEX, x, root, k);
      }
    }
  }
}
