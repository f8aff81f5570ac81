/** The decoder's integer square roots. All variables are 32-bit in the source;
    the subset types make every assignment prove that nothing wraps. */
module FixedSqrt {
  import opened BitStrings

  const TWO15 := 0x8000
  const TWO16 := 0x1_0000
  const TWO31 := 0x8000_0000

  type Uint32 = x: int | 0 <= x < 0x1_0000_0000
  type Int32 = x: int | -0x8000_0000 <= x < 0x8000_0000
  type Int64 = x: int | -0x8000_0000_0000_0000 <= x < 0x8000_0000_0000_0000

  function Square(x: int): int {
    x * x
  }

  ghost predicate IsFloorSqrt(a: int, r: int) {
    0 <= r && Square(r) <= a < Square(r + 1)
  }

  /** 4^k */
  function Pow4(k: nat): (r: nat)
    ensures r >= 1
  {
    if k == 0 then 1 else 4 * Pow4(k - 1)
  }

  /** What the loop knows before it tries the bit 4^k / 4: the root found so
      far is u * 2^k, res holds twice that root times 2^k / 2, and n is what is
      left of a. */
  ghost predicate Partial(a: int, e: nat, u: int, res: int, n: int) {
    && 0 <= u && res == e * u && n == a - e * Square(u)
    && 0 <= n && a < e * Square(u + 1)
  }

  lemma TryBit(a: int, bit: nat, u: int, res: int, n: int)
    requires bit >= 1 && Partial(a, 4 * bit, u, res, n)
    ensures n >= res + bit ==> Partial(a, bit, 2 * u + 1, res / 2 + bit, n - (res + bit))
    ensures n < res + bit ==> Partial(a, bit, 2 * u, res / 2, n)
  {
    var p := bit * u;
    var q := bit * Square(u);
    Products(bit, u);
    assert res == 4 * p && n == a - 4 * q;
    assert bit * Square(2 * u + 2) == 4 * bit * Square(u + 1) by {
      assert Square(2 * u + 2) == 4 * Square(u + 1);
    }
  }

  lemma Products(bit: nat, u: int)
    ensures 4 * bit * u == 4 * (bit * u) && bit * (2 * u) == 2 * (bit * u)
    ensures bit * (2 * u + 1) == 2 * (bit * u) + bit
    ensures 4 * bit * Square(u) == 4 * (bit * Square(u)) == bit * Square(2 * u)
    ensures bit * Square(2 * u + 1) == 4 * (bit * Square(u)) + 4 * (bit * u) + bit
    ensures 4 * bit * Square(u + 1) == bit * Square(2 * u + 2)
  {
    assert Square(2 * u) == 4 * Square(u);
    assert Square(2 * u + 1) == 4 * Square(u) + 4 * u + 1;
    assert Square(2 * u + 2) == 4 * Square(u + 1);
    Distribute(bit, Square(u), u);
    Scale(bit, Square(u));
    Scale(bit, Square(u + 1));
    Scale(bit, u);
  }

  lemma Distribute(bit: int, s: int, u: int)
    ensures bit * (4 * s + 4 * u + 1) == 4 * (bit * s) + 4 * (bit * u) + bit
    ensures bit * (2 * u + 1) == 2 * (bit * u) + bit
    ensures bit * (2 * u) == 2 * (bit * u)
  {
  }

  lemma Scale(bit: int, s: int)
    ensures 4 * bit * s == 4 * (bit * s) == bit * (4 * s)
  {
  }

  /** Nothing in the loop leaves 32 bits. */
  lemma {:induction false} PartialFits(a: int, k: nat, u: int, res: int, n: int)
    requires 0 < k <= 16 && a < 0x1_0000_0000 && Partial(a, Pow4(k), u, res, n)
    requires k == 16 ==> u == 0
    ensures 0 <= res && res + Pow4(k - 1) < 0x1_0000_0000
  {
    hide Square, Pow4;
    var e := Pow4(k);
    Pow4Values();
    FourTimes(k);
    if k < 16 {
      Pow4Monotone(k, 15);
      assert e <= 0x4000_0000;
      if u >= 2 {
        UpperBits(e, u, a);
      } else if u == 1 {
        assert e * u == e;
      } else {
        assert e * u == 0;
      }
    } else {
      assert res == 0;
    }
  }

  lemma UpperBits(e: nat, u: int, a: int)
    requires u >= 2 && e * Square(u) <= a
    ensures 0 <= e * u <= a / 2
  {
    assert Square(u) >= 2 * u;
    MulUp(e, 2 * u, Square(u));
    assert e * (2 * u) == 2 * (e * u);
    assert e * u >= 0;
  }

  lemma {:induction false} MulUp(e: nat, x: int, y: int)
    requires x <= y
    ensures e * x <= e * y
  {
    if e > 0 {
      MulUp(e - 1, x, y);
      assert e * x == (e - 1) * x + x && e * y == (e - 1) * y + y;
    }
  }

  lemma {:induction false} Pow4Monotone(j: nat, k: nat)
    requires j <= k
    ensures Pow4(j) <= Pow4(k)
  {
    if j > 0 {
      Pow4Monotone(j - 1, k - 1);
    }
  }

  lemma Pow4Values()
    ensures Pow4(14) == 0x1000_0000 && Pow4(15) == 0x4000_0000 && Pow4(16) == 0x1_0000_0000
  {
    assert Pow4(4) == 256;
    assert Pow4(8) == 0x1_0000;
    assert Pow4(12) == 0x100_0000;
  }

  /** The exact floor square root of any 32-bit number. */
  method FfSqrt(a: Uint32) returns (res: Uint32)
    ensures IsFloorSqrt(a, res)
  {
    hide Pow4, Partial;
    res := 0;
    var bit: Uint32 := 0x4000_0000;
    ghost var k: nat := 16;
    Pow4Values();
    while bit > a
      invariant k <= 16 && (if k == 0 then bit == 0 && a == 0 else bit == Pow4(k - 1))
      invariant a < Pow4(k)
      decreases k
    {
      Quarter(k - 1);
      bit := bit / 4;
      k := k - 1;
    }
    var n: Uint32 := a;
    ghost var u: int := 0;
    StartPartial(a, k);
    while bit != 0
      invariant k <= 16 && (if k == 0 then bit == 0 else bit == Pow4(k - 1))
      invariant k == 16 ==> u == 0
      invariant Partial(a, Pow4(k), u, res, n)
      decreases k
    {
      PartialFits(a, k, u, res, n);
      FourTimes(k);
      TryBit(a, bit, u, res, n);
      Quarter(k - 1);
      PartialFacts(a, bit, 2 * u + 1, res / 2 + bit, n - (res + bit));
      var sum: Uint32 := res + bit;
      if n >= sum {
        n := n - sum;
        res := res / 2 + bit;
        u := 2 * u + 1;
      } else {
        res := res / 2;
        u := 2 * u;
      }
      bit := bit / 4;
      k := k - 1;
    }
    FinishPartial(a, u, res, n);
  }

  lemma Quarter(k: nat)
    ensures Pow4(k) / 4 == if k == 0 then 0 else Pow4(k - 1)
    ensures k == 0 ==> Pow4(k) == 1
  {
  }

  lemma FourTimes(k: nat)
    requires k > 0
    ensures Pow4(k) == 4 * Pow4(k - 1)
  {
  }

  lemma PartialFacts(a: int, e: nat, u: int, res: int, n: int)
    ensures Partial(a, e, u, res, n) ==> 0 <= n <= a
  {
    if Partial(a, e, u, res, n) {
      assert Square(u) >= 0;
      MulUp(e, 0, Square(u));
    }
  }

  lemma StartPartial(a: int, k: nat)
    requires 0 <= a < Pow4(k)
    ensures Partial(a, Pow4(k), 0, 0, a)
  {
  }

  lemma FinishPartial(a: int, u: int, res: int, n: int)
    requires Partial(a, Pow4(0), u, res, n)
    ensures IsFloorSqrt(a, res)
  {
  }

  /** r approximates sqrt(x * 2^31) from below, g being the width still open. */
  ghost predicate Approximates(x: int, r: int, g: int) {
    Square(r) < (x + 1) * TWO31 <= Square(r + g) + TWO15
  }

  lemma StartApproximation(x: int, s: int)
    requires 0 <= x && IsFloorSqrt(x / 2, s)
    ensures Approximates(x, s * TWO16, TWO16)
  {
    SquareShift(s);
    SquareShift(s + 1);
  }

  lemma SquareShift(s: int)
    ensures Square(s * TWO16) == Square(s) * 0x1_0000_0000
  {
    assert s * TWO16 * (s * TWO16) == (s * s) * (TWO16 * TWO16);
  }

  lemma SquareMonotone(x: int, y: int)
    requires 0 <= x <= y
    ensures 0 <= Square(x) <= Square(y)
  {
    MulUp(x, x, y);
    MulUp(y, x, y);
    MulUp(x, 0, x);
  }

  lemma SmallRoot(x: int, s: int)
    requires 0 <= x < TWO31 && IsFloorSqrt(x / 2, s)
    ensures s < TWO15
  {
    if s >= TWO15 {
      SquareMonotone(TWO15, s);
    }
  }

  lemma SquareBound(g: int)
    requires 0 <= g < TWO31
    ensures 0 <= Square(g) <= 0x3fff_ffff_0000_0001
  {
    SquareMonotone(g, TWO31 - 1);
  }

  /** The fixed-point square root of x with 31 fractional bits. */
  method FixedSqrt31(x: Int32) returns (r: Int32)
    requires 0 <= x
    ensures 46340 <= r
    ensures Square(r) < (x + 1) * TWO31 <= Square(r + 1) + TWO15
  {
    hide Square, Pow2, Approximates, IsFloorSqrt;
    var root := FfSqrt(x / 2);
    SmallRoot(x, root);
    StartApproximation(x, root);
    r := root;
    r := r * TWO16;
    var bitMask: Int32 := TWO15;
    ghost var g: int := TWO16;
    var i := 0;
    Pow2Values();
    ghost var limit: int := r + TWO16;
    while i < 16
      invariant 0 <= i <= 16
      invariant g == Pow2(16 - i) && bitMask == g / 2 && g <= TWO16
      invariant 0 <= r && r + g <= limit <= TWO31
      invariant Approximates(x, r, g)
    {
      var guess: Int32 := r + bitMask;
      SquareBound(guess);
      var accu: Int64 := Square(guess);
      var square: Int32 := (accu + bitMask) / TWO31;
      HalfGap(16 - i);
      GuessDecides(x, r, g, guess);
      if x >= square {
        r := r + bitMask;
      }
      bitMask := bitMask / 2;
      g := g / 2;
      i := i + 1;
    }
    ApproximatesClosed(x, r);
    LargeRoot(x, r);
  }

  lemma HalfGap(k: nat)
    ensures Pow2(k) / 2 == if k == 0 then 0 else Pow2(k - 1)
    ensures k > 0 ==> Pow2(k) % 2 == 0 && Pow2(k) >= 2
  {
  }

  lemma ApproximatesClosed(x: int, r: int)
    requires Approximates(x, r, Pow2(0))
    ensures Square(r) < (x + 1) * TWO31 <= Square(r + 1) + TWO15
  {
    hide Square;
  }

  /** The comparison of the rounded square is the comparison of the exact one. */
  lemma GuessDecides(x: int, r: int, g: int, guess: int)
    requires g % 2 == 0 && 2 <= g <= TWO16 && guess == r + g / 2 && Approximates(x, r, g)
    ensures x >= (Square(guess) + g / 2) / TWO31 ==> Approximates(x, guess, g / 2)
    ensures x < (Square(guess) + g / 2) / TWO31 ==> Approximates(x, r, g / 2)
  {
    hide Square;
  }

  lemma LargeRoot(x: int, r: int)
    requires 0 <= x && 0 <= r && (x + 1) * TWO31 <= Square(r + 1) + TWO15
    ensures 46340 <= r
  {
    if r < 46340 {
      SquareMonotone(r + 1, 46340);
    }
  }

  /** The normalisation loop of noise_scale: the divisor is r shifted right nlz
      times, and it is a 15-bit number with its top bit set, so the division
      that follows is never by zero. */
  method NoiseDivisor(energy: Int32) returns (divisor: Int32, nlz: nat)
    requires 46340 <= energy
    ensures 0x4000 <= divisor <= 0x7fff
    ensures divisor == Shr(energy, nlz) && 1 <= nlz <= 16
  {
    divisor, nlz := energy, 0;
    ShrAdd(energy, 0, 0);
    while divisor > 0x7fff
      invariant 0x4000 <= divisor && divisor == Shr(energy, nlz) && (nlz == 0 ==> divisor == energy)
      invariant Shl(divisor, nlz) <= energy
      decreases divisor
    {
      ShrAdd(energy, nlz, 1);
      ShlHalf(divisor, nlz);
      divisor := divisor / 2;
      nlz := nlz + 1;
    }
    if nlz > 16 {
      Pow2Values();
      ShlAtLeast(divisor, 14, nlz);
      Pow2Monotone(31, 14 + nlz);
    }
  }

  lemma {:induction false} ShlHalf(d: nat, n: nat)
    ensures Shl(d / 2, n + 1) <= Shl(d, n)
  {
    if n > 0 {
      ShlHalf(d, n - 1);
    }
  }

  lemma {:induction false} ShlAtLeast(d: nat, k: nat, n: nat)
    requires Pow2(k) <= d
    ensures Pow2(k + n) <= Shl(d, n)
  {
    if n > 0 {
      ShlAtLeast(d, k, n - 1);
    }
  }

  lemma Pow2Values()
    ensures Pow2(14) == 0x4000 && Pow2(16) == TWO16 && Pow2(31) == TWO31
  {
    assert Pow2(4) == 16;
    assert Pow2(8) == 256;
    assert Pow2(12) == 4096;
    assert Pow2(20) == 0x10_0000;
    assert Pow2(24) == 0x100_0000;
    assert Pow2(28) == 0x1000_0000;
  }
}
