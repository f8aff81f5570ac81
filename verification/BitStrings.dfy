/** Bit strings, most significant bit first, and their values. The bit reader,
    the bit writer and the code tables all speak about the same strings. Shifts
    and masks are written by recursion on the shift count, so that proofs about
    them stay linear. */
module BitStrings {
  import Arith

  type Bits = seq<bool>

  function Pow2(n: nat): (r: nat)
    ensures r >= 1
  {
    if n == 0 then 1 else 2 * Pow2(n - 1)
  }

  /** v << n */
  function Shl(v: nat, n: nat): nat {
    if n == 0 then v else 2 * Shl(v, n - 1)
  }

  /** v >> n */
  function Shr(v: nat, n: nat): nat {
    if n == 0 then v else Shr(v / 2, n - 1)
  }

  /** The low n bits of v, v & (1<<n - 1). */
  function Low(v: nat, n: nat): nat {
    if n == 0 then 0 else 2 * Low(v / 2, n - 1) + v % 2
  }

  /** The number a bit string denotes. */
  function Val(s: Bits): nat {
    if |s| == 0 then 0 else 2 * Val(s[..|s| - 1]) + (if s[|s| - 1] then 1 else 0)
  }

  /** The low n bits of v as a string. */
  function ToBits(n: nat, v: nat): (s: Bits)
    ensures |s| == n
  {
    if n == 0 then [] else ToBits(n - 1, v / 2) + [v % 2 == 1]
  }

  /** The n bits from pos on, reading zeros past the end. */
  function Window(s: Bits, pos: nat, n: nat): (w: Bits)
    ensures |w| == n
  {
    seq(n, i requires 0 <= i < n => pos + i < |s| && s[pos + i])
  }

  function Zeros(n: nat): Bits {
    seq(n, _ => false)
  }

  // ----- shifts and masks

  lemma {:induction false} LowBound(v: nat, n: nat)
    ensures Low(v, n) < Pow2(n)
  {
    if n > 0 {
      LowBound(v / 2, n - 1);
    }
  }

  lemma {:induction false} LowOfSmall(v: nat, n: nat)
    requires v < Pow2(n)
    ensures Low(v, n) == v && Shr(v, n) == 0
  {
    if n > 0 {
      LowOfSmall(v / 2, n - 1);
    }
  }

  lemma {:induction false} ShrAdd(v: nat, m: nat, n: nat)
    ensures Shr(v, m + n) == Shr(Shr(v, m), n)
  {
    if m > 0 {
      ShrAdd(v / 2, m - 1, n);
    }
  }

  lemma {:induction false} ShrShl(v: nat, k: nat, j: nat)
    requires k <= j
    ensures Shr(Shl(v, k), j) == Shr(v, j - k)
  {
    if k > 0 {
      assert Shl(v, k) / 2 == Shl(v, k - 1);
      ShrShl(v, k - 1, j - 1);
    }
  }

  lemma {:induction false} LowShl(v: nat, k: nat, m: nat)
    requires k <= m
    ensures Low(Shl(v, k), m) == Shl(Low(v, m - k), k)
  {
    if k > 0 {
      assert Shl(v, k) / 2 == Shl(v, k - 1);
      LowShl(v, k - 1, m - 1);
    }
  }

  /** x >> k == c says that x lies in the aligned block number c of size 2^k. */
  lemma {:induction false} ShrRange(x: nat, k: nat, c: nat)
    ensures Shr(x, k) == c <==> Shl(c, k) <= x < Shl(c, k) + Pow2(k)
  {
    if k > 0 {
      ShrRange(x / 2, k - 1, c);
    }
  }

  /** Blocks of a 2^(n+k) range are in range. */
  lemma {:induction false} ShlBound(c: nat, n: nat, k: nat)
    requires c < Pow2(n)
    ensures Shl(c, k) + Pow2(k) <= Pow2(n + k)
  {
    if k > 0 {
      ShlBound(c, n, k - 1);
      assert Pow2(n + k) == 2 * Pow2(n + k - 1);
    }
  }

  lemma {:induction false} SplitHighLow(x: nat, y: nat, n: nat)
    ensures x == y <==> Shr(x, n) == Shr(y, n) && Low(x, n) == Low(y, n)
  {
    if n > 0 {
      SplitHighLow(x / 2, y / 2, n - 1);
    }
  }

  lemma {:induction false} ShrBound(v: nat, n: nat, k: nat)
    requires v < Pow2(n + k)
    ensures Shr(v, k) < Pow2(n)
  {
    if k > 0 {
      assert Pow2(n + k) == 2 * Pow2(n + k - 1);
      ShrBound(v / 2, n, k - 1);
    }
  }

  lemma {:induction false} Pow2Monotone(m: nat, n: nat)
    requires m <= n
    ensures Pow2(m) <= Pow2(n)
  {
    if m > 0 {
      Pow2Monotone(m - 1, n - 1);
    }
  }

  // ----- shifts as arithmetic

  lemma {:induction false} ShlTimes(v: nat, n: nat)
    ensures Shl(v, n) == v * Pow2(n)
  {
    if n > 0 {
      ShlTimes(v, n - 1);
      Arith.MulDouble(v, Pow2(n - 1));
    }
  }

  lemma {:induction false} ShrDivides(v: nat, n: nat)
    ensures Shr(v, n) == v / Pow2(n) && Low(v, n) == v % Pow2(n)
    decreases n
  {
    if n > 0 {
      Arith.DivMod(v, 2, Pow2(n - 1));
      ShrDivides(v / 2, n - 1);
    }
  }

  // ----- values of strings

  lemma {:induction false} ValBound(s: Bits)
    ensures Val(s) < Pow2(|s|)
  {
    if |s| > 0 {
      ValBound(s[..|s| - 1]);
    }
  }

  lemma {:induction false} ValToBits(n: nat, v: nat)
    ensures Val(ToBits(n, v)) == Low(v, n)
  {
    if n > 0 {
      ValToBits(n - 1, v / 2);
      assert ToBits(n, v)[..n - 1] == ToBits(n - 1, v / 2);
    }
  }

  /** Splitting a field: the high part, then the low part. */
  lemma {:induction false} ToBitsSplit(m: nat, n: nat, v: nat)
    ensures ToBits(m + n, v) == ToBits(m, Shr(v, n)) + ToBits(n, v)
  {
    if n > 0 {
      ToBitsSplit(m, n - 1, v / 2);
      assert ToBits(m + n, v) == ToBits(m + (n - 1), v / 2) + [v % 2 == 1];
    }
  }

  lemma {:induction false} ValConcat(a: Bits, b: Bits)
    ensures Val(a + b) == Shl(Val(a), |b|) + Val(b)
  {
    if |b| == 0 {
      assert a + b == a;
    } else {
      assert (a + b)[..|a + b| - 1] == a + b[..|b| - 1];
      ValConcat(a, b[..|b| - 1]);
    }
  }

  /** Only the low n bits of a number matter to its n-bit field. */
  lemma {:induction false} ToBitsLow(n: nat, m: nat, v: nat)
    requires n <= m
    ensures ToBits(n, Low(v, m)) == ToBits(n, v)
  {
    if n > 0 {
      ToBitsLow(n - 1, m - 1, v / 2);
    }
  }

  /** A value that fits its field reads back unchanged. */
  lemma FieldRoundTrip(n: nat, v: nat)
    requires v < Pow2(n)
    ensures Val(ToBits(n, v)) == v
  {
    ValToBits(n, v);
    LowOfSmall(v, n);
  }

  lemma WindowSplit(s: Bits, pos: nat, m: nat, n: nat)
    ensures Window(s, pos, m + n) == Window(s, pos, m) + Window(s, pos + m, n)
  {
  }

  /** The leading m bits of a field are its value shifted right. */
  lemma {:induction false} ValHigh(s: Bits, m: nat)
    requires m <= |s|
    ensures Shr(Val(s), |s| - m) == Val(s[..m])
    ensures Low(Val(s), |s| - m) == Val(s[m..])
  {
    if m < |s| {
      var s' := s[..|s| - 1];
      ValHigh(s', m);
      assert Val(s) / 2 == Val(s');
      assert s'[..m] == s[..m];
      assert s[m..][..|s| - m - 1] == s'[m..];
    } else {
      assert s[..m] == s;
    }
  }

  // ----- byte strings

  ghost predicate IsBytes(b: seq<nat>) {
    forall i :: 0 <= i < |b| ==> b[i] < 256
  }

  lemma ByteBound(v: nat)
    ensures Low(v, 8) < 256 && Pow2(8) == 256
  {
    LowBound(v, 8);
  }

  function BytesBits(b: seq<nat>): (s: Bits)
    ensures |s| == 8 * |b|
  {
    if |b| == 0 then [] else BytesBits(b[..|b| - 1]) + ToBits(8, b[|b| - 1])
  }

  lemma {:induction false} BytesBitsConcat(a: seq<nat>, b: seq<nat>)
    ensures BytesBits(a + b) == BytesBits(a) + BytesBits(b)
  {
    if |b| == 0 {
      assert a + b == a;
    } else {
      BytesBitsConcat(a, b[..|b| - 1]);
      assert (a + b)[..|a + b| - 1] == a + b[..|b| - 1];
    }
  }

  lemma BytesBitsPush(a: seq<nat>, x: nat)
    ensures BytesBits(a + [x]) == BytesBits(a) + ToBits(8, x)
  {
    assert (a + [x])[..|a|] == a;
  }
}
