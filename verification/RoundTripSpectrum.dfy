/** The parser reads back every quantized coefficient the printer writes,
    including sign bits and escapes up to 8191. */
module RoundTripSpectrum {
  import opened BitStrings
  import opened BitReader
  import opened Vlc
  import opened AacSyntax
  import opened AacParse
  import opened AacPrint

  // ----- the sign register

  lemma {:induction false} ShlSum(x: nat, y: nat, k: nat)
    ensures Shl(x + y, k) == Shl(x, k) + Shl(y, k)
  {
    if k > 0 {
      ShlSum(x, y, k - 1);
    }
  }

  lemma {:induction false} ShlShl(x: nat, j: nat, k: nat)
    ensures Shl(Shl(x, j), k) == Shl(x, j + k)
  {
    if k > 0 {
      ShlShl(x, j, k - 1);
    }
  }

  /** Sign bits left-aligned in 32 bits. */
  function SignReg(b: Bits): nat
    requires |b| <= 32
  {
    Shl(Val(b), 32 - |b|)
  }

  lemma {:induction false} ShlPow2(k: nat)
    ensures Shl(1, k) == Pow2(k) && Shl(0, k) == 0
  {
    if k > 0 {
      ShlPow2(k - 1);
    }
  }

  lemma TopBit(k: nat)
    requires k == 31
    ensures Pow2(k) == TOP
  {
    assert Pow2(11) == 2048;
    assert Pow2(21) == 1024 * Pow2(11) by {
      assert Pow2(16) == 32 * Pow2(11);
      assert Pow2(21) == 32 * Pow2(16);
    }
    assert Pow2(26) == 32 * Pow2(21);
    assert Pow2(31) == 32 * Pow2(26);
  }

  lemma SignRegHead(b: Bits)
    requires 1 <= |b| <= 32
    ensures SignReg(b) >= TOP <==> b[0]
    ensures ShiftSign(SignReg(b)) == SignReg(b[1..])
  {
    var n, head, tail := |b|, if b[0] then 1 else 0, b[1..];
    HeadBit(b);
    ValBound(tail);
    AlignedSplit(head, Val(tail), n - 1, Val(b));
  }

  lemma {:induction false} HeadBit(b: Bits)
    requires |b| >= 1
    ensures Val(b) == Shl(if b[0] then 1 else 0, |b| - 1) + Val(b[1..])
  {
    if |b| > 1 {
      var b' := b[..|b| - 1];
      HeadBit(b');
      assert b[1..][..|b[1..]| - 1] == b'[1..];
    } else {
      assert b[..0] == [] && b[1..] == [];
    }
  }

  lemma ShlTwice(v: nat, k: nat)
    ensures Shl(v, k + 1) == 2 * Shl(v, k)
  {
  }

  lemma TopAndRest(head: nat, low: nat)
    requires head <= 1 && low < TOP
    ensures head * TOP + low >= TOP <==> head == 1
    ensures ShiftSign(head * TOP + low) == 2 * low
  {
    if head == 1 {
      assert (TOP + low) * 2 == 2 * low + 2 * TOP;
    }
  }

  /** A head bit above k tail bits, both aligned to the top of 32 bits. */
  lemma AlignedSplit(head: nat, tail: nat, k: nat, v: nat)
    requires head <= 1 && tail < Pow2(k) && k < 32 && v == Shl(head, k) + tail
    ensures Shl(v, 31 - k) >= TOP <==> head == 1
    ensures ShiftSign(Shl(v, 31 - k)) == Shl(tail, 32 - k)
  {
    hide Shl, Pow2, ShiftSign;
    ShlSum(Shl(head, k), tail, 31 - k);
    ShlShl(head, k, 31 - k);
    ShlPow2(31);
    TopBit(31);
    ShlBound(tail, k, 31 - k);
    ShlTwice(tail, 31 - k);
    TopAndRest(head, Shl(tail, 31 - k));
  }

  lemma SignStep(x: seq<int>)
    requires 1 <= |x| <= 32
    ensures |PrintSigns(x)| <= |x|
    ensures Signed32(Abs(x[0]), SignReg(PrintSigns(x))) == x[0]
    ensures NextSign(SignReg(PrintSigns(x)), x[0] != 0) == SignReg(PrintSigns(x[1..]))
  {
    SignsCount(x);
    SignsCount(x[1..]);
    var b := PrintSigns(x);
    if x[0] != 0 {
      assert b == [x[0] < 0] + PrintSigns(x[1..]);
      SignRegHead(b);
      assert b[1..] == PrintSigns(x[1..]);
    } else {
      assert b == PrintSigns(x[1..]);
    }
  }

  function CountNonZero(x: seq<int>): nat {
    if |x| == 0 then 0 else NonZero(x[0]) + CountNonZero(x[1..])
  }

  lemma {:induction false} SignsCount(x: seq<int>)
    ensures |PrintSigns(x)| == CountNonZero(x) <= |x|
  {
    if |x| > 0 {
      SignsCount(x[1..]);
    }
  }

  lemma ReadSigns(c: Cursor, b: Bits)
    requires c.Ahead(b)
    ensures c.Peek(|b|) == Val(b) && c.Skip(|b|) == c.Adv(|b|)
  {
    hide Val;
    AheadWindow(c, b);
  }

  // ----- quads

  lemma UnpackSQuad(d: seq<int>, sym: nat)
    requires |d| == 4 && (forall i :: 0 <= i < 4 ==> 0 <= d[i] < 3)
    requires sym % 256 == d[0] + 4 * d[1] + 16 * d[2] + 64 * d[3]
    ensures SQuad(sym) == [d[0] - 1, d[1] - 1, d[2] - 1, d[3] - 1]
  {
    var h := sym / 256;
    assert sym == d[0] + 4 * (d[1] + 4 * d[2] + 16 * d[3] + 64 * h);
    assert sym / 4 == d[1] + 4 * (d[2] + 4 * d[3] + 16 * h);
    assert sym / 16 == d[2] + 4 * (d[3] + 4 * h);
    assert sym / 64 == d[3] + 4 * h;
  }

  lemma UnpackUQuad(d: seq<int>, n: nat, m: nat, sym: nat)
    requires |d| == 4 && (forall i :: 0 <= i < 4 ==> 0 <= d[i] < 3) && n < 16
    requires sym == d[0] + 4 * d[1] + 16 * d[2] + 64 * d[3] + 256 * n + 4096 * m
    ensures sym % 4 == d[0] && sym / 4 % 4 == d[1] && sym / 16 % 4 == d[2] && sym / 64 % 4 == d[3]
    ensures sym / 256 % 16 == n && sym / 4096 == m
  {
    assert sym / 4 == d[1] + 4 * d[2] + 16 * d[3] + 64 * n + 1024 * m;
    assert sym / 16 == d[2] + 4 * d[3] + 16 * n + 256 * m;
    assert sym / 64 == d[3] + 4 * n + 64 * m;
    assert sym / 256 == n + 16 * m;
  }

  lemma Mask(a: nat, b: nat, c: nat, d: nat)
    requires a <= 1 && b <= 1 && c <= 1 && d <= 1
    ensures var m := a + 2 * b + 4 * c + 8 * d;
            m % 2 == a && m / 2 % 2 == b && m / 4 % 2 == c
  {
  }

  lemma Four(x: seq<int>)
    requires |x| == 4
    ensures x[1..][0] == x[1] && x[2..][0] == x[2] && x[3..][0] == x[3]
    ensures x[1..][1..] == x[2..] && x[2..][1..] == x[3..]
    ensures CountNonZero(x) == NonZero(x[0]) + NonZero(x[1]) + NonZero(x[2]) + NonZero(x[3])
  {
    assert x[3..][1..] == [];
    assert CountNonZero(x[3..]) == NonZero(x[3]);
    assert x[2..][1..] == x[3..];
    assert CountNonZero(x[2..]) == NonZero(x[2]) + CountNonZero(x[3..]);
    assert x[1..][1..] == x[2..];
  }

  lemma UQuadSigns(x: seq<int>)
    requires |x| == 4
    ensures |PrintSigns(x)| == NonZero(x[0]) + NonZero(x[1]) + NonZero(x[2]) + NonZero(x[3]) <= 4
    ensures var s0 := SignReg(PrintSigns(x));
            var s1 := NextSign(s0, x[0] != 0);
            var s2 := NextSign(s1, x[1] != 0);
            var s3 := NextSign(s2, x[2] != 0);
            [Signed32(Abs(x[0]), s0), Signed32(Abs(x[1]), s1), Signed32(Abs(x[2]), s2), Signed32(Abs(x[3]), s3)] == x
  {
    hide PrintSigns, SignReg, NextSign, Signed32, CountNonZero;
    Four(x);
    SignsCount(x);
    SignStep(x);
    SignStep(x[1..]);
    SignStep(x[2..]);
    SignStep(x[3..]);
  }

  lemma UQuad(cb: nat, x: seq<int>, sym: nat, c: Cursor)
    requires cb == 3 || cb == 4
    requires |x| == 4 && CarriesAll(cb, x) && Packed(cb, Digits(cb, x), sym) && c.Ahead(PrintSigns(x))
    ensures ParseUQuad(sym, c) == (x, c.Adv(|PrintSigns(x)|))
  {
    hide PrintSigns, NextSign, Signed32, Cursor.Ahead, Cursor.Peek, Val, Shl, SignReg;
    var d := Digits(cb, x);
    var n := NonZero(x[0]) + NonZero(x[1]) + NonZero(x[2]) + NonZero(x[3]);
    var m := NonZero(x[0]) + 2 * NonZero(x[1]) + 4 * NonZero(x[2]) + 8 * NonZero(x[3]);
    assert d[0] == Abs(x[0]) && d[1] == Abs(x[1]) && d[2] == Abs(x[2]) && d[3] == Abs(x[3]);
    UnpackUQuad(d, n, m, sym);
    Mask(NonZero(x[0]), NonZero(x[1]), NonZero(x[2]), NonZero(x[3]));
    UQuadSigns(x);
    ReadSigns(c, PrintSigns(x));
    SignRegIs(PrintSigns(x));
  }

  // ----- pairs

  lemma UnpackSPair(d: seq<int>, sym: nat)
    requires |d| == 2 && (forall i :: 0 <= i < 2 ==> 0 <= d[i] < 9)
    requires sym % 256 == d[0] + 16 * d[1]
    ensures SPair(sym) == [d[0] - 4, d[1] - 4]
  {
    var h := sym / 256;
    assert sym == d[0] + 16 * (d[1] + 16 * h);
    assert sym / 16 == d[1] + 16 * h;
  }

  lemma UnpackUPair(a: nat, b: nat, n: nat, m: nat, sym: nat)
    requires a < 16 && b < 16 && n < 16
    requires sym == a + 16 * b + 256 * n + 4096 * m
    ensures sym % 16 == a && sym / 16 % 16 == b && sym / 256 % 16 == n && sym / 4096 == m
  {
    assert sym == a + 16 * (b + 16 * (n + 16 * m));
    assert sym / 16 == b + 16 * (n + 16 * m);
    assert sym / 256 == n + 16 * m;
  }

  lemma PairSigns(x: seq<int>)
    requires |x| == 2
    ensures PrintSigns(x) == (if x[0] != 0 then [x[0] < 0] else []) + (if x[1] != 0 then [x[1] < 0] else [])
  {
    assert x[1..][1..] == [];
    assert PrintSigns(x[1..]) == if x[1] != 0 then [x[1] < 0] else [];
  }

  lemma PairVal(a: bool, b: bool)
    ensures Val([a]) == (if a then 1 else 0)
    ensures Val([a, b]) == (if a then 2 else 0) + (if b then 1 else 0)
  {
    assert [a][..0] == [] && [a, b][..1] == [a];
  }

  lemma UPair(cb: nat, x: seq<int>, sym: nat, c: Cursor)
    requires 7 <= cb <= 10
    requires |x| == 2 && CarriesAll(cb, x) && Packed(cb, Digits(cb, x), sym) && c.Ahead(PrintSigns(x))
    ensures ParseUPair(sym, c) == (x, c.Adv(|PrintSigns(x)|))
  {
    hide PrintSigns, Cursor.Ahead, Cursor.Peek, Val, Shl;
    var d := Digits(cb, x);
    assert d[0] == Abs(x[0]) && d[1] == Abs(x[1]);
    var n, m := NonZero(x[0]) + NonZero(x[1]), if x[0] != 0 && x[1] == 0 then 1 else 0;
    UnpackUPair(d[0], d[1], n, m, sym);
    PairSigns(x);
    ReadSigns(c, PrintSigns(x));
    UPairValues(x, PrintSigns(x), n, m);
  }

  lemma UPairValues(x: seq<int>, b: Bits, n: nat, m: nat)
    requires |x| == 2 && n == NonZero(x[0]) + NonZero(x[1]) && m == (if x[0] != 0 && x[1] == 0 then 1 else 0)
    requires b == (if x[0] != 0 then [x[0] < 0] else []) + (if x[1] != 0 then [x[1] < 0] else [])
    ensures var sign := if n > 0 then Shl(Val(b), m) else 0;
            [Abs(x[0]) * (1 - (sign - sign % 2)), Abs(x[1]) * (1 - (sign % 2) * 2)] == x
  {
    if x[0] != 0 && x[1] != 0 {
      assert b == [x[0] < 0, x[1] < 0];
      PairVal(x[0] < 0, x[1] < 0);
    } else if x[0] != 0 {
      assert b == [x[0] < 0];
      PairVal(x[0] < 0, false);
      assert Shl(Val(b), m) == 2 * Val(b);
    } else if x[1] != 0 {
      assert b == [x[1] < 0];
      PairVal(x[1] < 0, false);
    }
  }

  // ----- escapes

  lemma {:induction false} Log2Range(x: nat)
    requires x >= 1
    ensures Pow2(Log2(x)) <= x < 2 * Pow2(Log2(x))
  {
    if x >= 2 {
      Log2Range(x / 2);
    }
  }

  /** A number within [2^n, 2^(n+1)) is its leading one plus its low n bits. */
  lemma {:induction false} LeadingOne(x: nat, n: nat)
    requires Pow2(n) <= x < 2 * Pow2(n)
    ensures Pow2(n) + Low(x, n) == x
  {
    if n > 0 {
      LeadingOne(x / 2, n - 1);
    }
  }

  /** 2^(n+1) - 2 in n+1 bits is n ones and a zero. */
  lemma {:induction false} Unary(n: nat)
    ensures ToBits(n + 1, Pow2(n + 1) - 2) == Ones(n) + [false]
  {
    assert (Pow2(n + 1) - 2) / 2 == Pow2(n) - 1 && (Pow2(n + 1) - 2) % 2 == 0;
    AllOnes(n);
  }

  lemma {:induction false} AllOnes(n: nat)
    ensures ToBits(n, Pow2(n) - 1) == Ones(n)
  {
    if n > 0 {
      assert (Pow2(n) - 1) / 2 == Pow2(n - 1) - 1 && (Pow2(n) - 1) % 2 == 1;
      AllOnes(n - 1);
    }
  }

  lemma {:induction false} CountOnes(w: Bits, n: nat)
    requires n < |w| && !w[n] && forall i :: 0 <= i < n ==> w[i]
    ensures LeadingOnes(w) == n
    decreases n
  {
    if n > 0 {
      CountOnes(w[1..], n - 1);
    }
  }

  lemma Log2Limit(x: nat)
    requires 16 <= x <= 8191
    ensures 4 <= Log2(x) <= 12
  {
    Log2At16(x);
    Log2Range(x);
    assert Pow2(13) == 8192;
    if Log2(x) >= 13 {
      Pow2Monotone(13, Log2(x));
    }
  }

  lemma EscapeRoundTrip(c: Cursor, x: nat)
    requires 16 <= x <= 8191 && c.Ahead(PrintEscape(x))
    ensures ParseEscape(c) == Good(x, c.Adv(|PrintEscape(x)|))
  {
    hide Log2, ToBits, Cursor.Ahead, Window, LeadingOnes, Val, Low, Ones;
    Log2Limit(x);
    var len := Log2(x);
    var n := len - 4;
    var a, b := ToBits(n + 1, Pow2(n + 1) - 2), ToBits(len, x);
    assert PrintEscape(x) == a + b;
    AheadSplit(c, a, b);
    Unary(n);
    EscapeHead(c, n);
    ReadSigns(c.Adv(n + 1), b);
    ValToBits(len, x);
    Log2Range(x);
    LeadingOne(x, len);
  }

  lemma EscapeHead(c: Cursor, n: nat)
    requires n <= 8 && c.Ahead(Ones(n) + [false])
    ensures LeadingOnes(Window(c.s, c.pos, 32)) == n && c.Skip(n + 1) == c.Adv(n + 1)
  {
    var w := Window(c.s, c.pos, 32);
    forall i | 0 <= i <= n
      ensures w[i] == (Ones(n) + [false])[i]
    {
      assert w[i] == c.s[c.pos..c.pos + n + 1][i];
    }
    CountOnes(w, n);
  }

  lemma UnpackEsc(d: seq<int>, sym: nat)
    requires |d| == 2 && (forall i :: 0 <= i < 2 ==> 0 <= d[i] <= 16) && Packed(ESC_BT, d, sym)
    ensures sym / 4096 == NonZero(d[0]) + NonZero(d[1])
    ensures sym / 256 % 2 == (if d[0] == 16 then 1 else 0) && sym / 512 % 2 == (if d[1] == 16 then 1 else 0)
    ensures d[0] != 16 ==> sym % 16 == d[0]
    ensures d[1] != 16 ==> sym / 16 % 16 == d[1]
    ensures sym == 0 <==> d[0] == 0 && d[1] == 0
  {
    var e0, e1 := if d[0] == 16 then 1 else 0, if d[1] == 16 then 1 else 0;
    var v0, v1 := if d[0] == 16 then 0 else d[0], if d[1] == 16 then 0 else d[1];
    var n := NonZero(d[0]) + NonZero(d[1]);
    assert sym == v0 + 16 * v1 + 256 * (e0 + 2 * e1 + 16 * n);
    UnpackUPair(v0, v1, 0, 0, v0 + 16 * v1);
    assert sym / 16 == v1 + 16 * (e0 + 2 * e1 + 16 * n);
    assert sym / 256 == e0 + 2 * e1 + 16 * n;
    assert sym / 512 == e1 + 8 * n;
    assert sym / 4096 == n;
  }

  /** What one value of an escape pair adds behind the signs. */
  function EscapeOf(x: int): Bits {
    if Abs(x) >= 16 then PrintEscape(Abs(x)) else []
  }

  lemma HalfRoundTrip(x: seq<int>, nibble: nat, c: Cursor)
    requires 1 <= |x| <= 32 && Abs(x[0]) <= 8191 && (Abs(x[0]) < 16 ==> nibble == Abs(x[0]))
    requires c.Ahead(EscapeOf(x[0]))
    ensures |PrintSigns(x)| <= 32 && |PrintSigns(x[1..])| <= 32
    ensures ParseHalf(Abs(x[0]) >= 16, nibble, SignReg(PrintSigns(x)), c)
            == Good(Half(x[0], SignReg(PrintSigns(x[1..]))), c.Adv(|EscapeOf(x[0])|))
  {
    hide PrintSigns, SignReg, Signed32, ParseEscape, PrintEscape, Cursor.Ahead;
    SignsCount(x);
    SignsCount(x[1..]);
    SignStep(x);
    if Abs(x[0]) >= 16 {
      EscapeRoundTrip(c, Abs(x[0]));
    }
  }

  lemma PairEscapes(x: seq<int>)
    requires |x| == 2
    ensures PrintEscapes(x) == EscapeOf(x[0]) + EscapeOf(x[1])
  {
    assert x[1..][1..] == [];
    assert PrintEscapes(x[1..]) == EscapeOf(x[1]) + [];
  }

  lemma EscTail(x: seq<int>, sym: nat, c: Cursor, b: Bits, e0: Bits, e1: Bits)
    requires |x| == 2 && Abs(x[0]) <= 8191 && Abs(x[1]) <= 8191 && 0 < sym < 65536
    requires b == PrintSigns(x) && e0 == EscapeOf(x[0]) && e1 == EscapeOf(x[1]) && |b| == sym / 4096
    requires c.Ahead(b + (e0 + e1))
    requires sym / 256 % 2 == 1 <==> Abs(x[0]) >= 16
    requires sym / 512 % 2 == 1 <==> Abs(x[1]) >= 16
    requires Abs(x[0]) < 16 ==> sym % 16 == Abs(x[0])
    requires Abs(x[1]) < 16 ==> sym / 16 % 16 == Abs(x[1])
    ensures ParseEscPair(sym, c) == Good(x, c.Adv(|b + (e0 + e1)|))
  {
    hide EscapeOf, PrintSigns, SignReg, Signed32, ParseHalf, Cursor.Ahead, Cursor.Peek;
    AheadSplit(c, b, e0 + e1);
    AheadSplit(c.Adv(|b|), e0, e1);
    SignsCount(x);
    ReadSigns(c, b);
    SignRegIs(b);
    HalfRoundTrip(x, sym % 16, c.Adv(|b|));
    HalfRoundTrip(x[1..], sym / 16 % 16, c.Adv(|b|).Adv(|e0|));
    assert x == [x[0], x[1..][0]];
  }

  lemma EscPair(x: seq<int>, sym: nat, c: Cursor)
    requires |x| == 2 && CarriesAll(ESC_BT, x) && Packed(ESC_BT, Digits(ESC_BT, x), sym) && sym < 65536
    requires c.Ahead(PrintSigns(x) + PrintEscapes(x))
    ensures ParseEscPair(sym, c) == Good(x, c.Adv(|PrintSigns(x) + PrintEscapes(x)|))
  {
    hide EscapeOf, PrintSigns, PrintEscapes, ParseHalf, Cursor.Ahead, Cursor.Peek, Packed;
    var d := Digits(ESC_BT, x);
    UnpackEsc(d, sym);
    PairSigns(x);
    PairEscapes(x);
    if sym == 0 {
      NoEscape(x);
      assert PrintSigns(x) == [];
    } else {
      assert d[0] == 16 <==> Abs(x[0]) >= 16;
      assert d[1] == 16 <==> Abs(x[1]) >= 16;
      SignsCount(x);
      TwoNonZero(x);
      EscTail(x, sym, c, PrintSigns(x), EscapeOf(x[0]), EscapeOf(x[1]));
    }
  }

  lemma TwoNonZero(x: seq<int>)
    requires |x| == 2
    ensures CountNonZero(x) == NonZero(x[0]) + NonZero(x[1])
  {
    assert x[1..][1..] == [];
    assert CountNonZero(x[1..]) == NonZero(x[1]);
  }

  lemma SignRegIs(b: Bits)
    requires |b| <= 32
    ensures SignReg(b) == Shl(Val(b), 32 - |b|)
  {
  }

  lemma NoEscape(x: seq<int>)
    requires |x| == 2 && x[0] == 0 && x[1] == 0
    ensures EscapeOf(x[0]) + EscapeOf(x[1]) == [] && x == [0, 0]
  {
  }

  // ----- chunks, bands, spectrum

  lemma SignedChunk(cb: nat, x: seq<int>, sym: nat)
    requires Signed(cb) && |x| == Dim(cb) && CarriesAll(cb, x) && Packed(cb, Digits(cb, x), sym)
    ensures cb <= 2 ==> SQuad(sym) == x
    ensures cb > 2 ==> SPair(sym) == x
  {
    var d := Digits(cb, x);
    if cb <= 2 {
      UnpackSQuad(d, sym);
    } else {
      UnpackSPair(d, sym);
    }
  }

  lemma ChunkSymbol(b: Book, cb: nat, x: seq<int>, c: Cursor)
    requires SpectralOk(cb, b) && GoodDigits(cb, Digits(cb, x)) && |x| == Dim(cb)
    requires 0 <= Index(cb, Digits(cb, x)) < |b.lens| && c.Ahead(b.Word(Index(cb, Digits(cb, x))))
    ensures var j := Index(cb, Digits(cb, x));
            Lookup(b, c) == Found(b.syms[j], c.Adv(|b.Word(j)|)) && Packed(cb, Digits(cb, x), b.syms[j])
                && b.syms[j] < 65536
  {
    hide Digits, Packed, Index;
    LookupWord(b, c, Index(cb, Digits(cb, x)));
  }

  lemma BookOk(t: Tables, cb: nat)
    requires t.Valid() && Tonal(cb)
    ensures |t.spectral| == 11 && SpectralOk(cb, t.spectral[cb - 1])
  {
    assert SpectralOk(cb - 1 + 1, t.spectral[cb - 1]);
  }

  lemma ChunkRoundTrip(t: Tables, cb: nat, x: seq<int>, c: Cursor)
    requires t.Valid() && Tonal(cb) && |x| == Dim(cb) && CarriesAll(cb, x) && GoodDigits(cb, Digits(cb, x))
    requires c.Ahead(PrintChunk(t, cb, x))
    ensures ParseChunk(t, cb, c) == Good(x, c.Adv(|PrintChunk(t, cb, x)|))
  {
    hide Tables.Valid, Cursor.Ahead, PrintSigns, PrintEscapes, Packed, Index, Digits, CarriesAll, Lookup,
         Book.PrefixFree;
    BookOk(t, cb);
    var b := t.spectral[cb - 1];
    var j := Index(cb, Digits(cb, x));
    var w := b.Word(j);
    var signs := if Signed(cb) then [] else PrintSigns(x);
    var escs := if cb == ESC_BT then PrintEscapes(x) else [];
    assert PrintChunk(t, cb, x) == w + signs + escs;
    assert w + signs + escs == w + (signs + escs);
    AheadSplit(c, w, signs + escs);
    ChunkSymbol(b, cb, x, c);
    ChunkRest(cb, x, b.syms[j], c.Adv(|w|));
  }

  lemma ChunkRest(cb: nat, x: seq<int>, sym: nat, c: Cursor)
    requires Tonal(cb) && |x| == Dim(cb) && CarriesAll(cb, x) && Packed(cb, Digits(cb, x), sym) && sym < 65536
    requires c.Ahead((if Signed(cb) then [] else PrintSigns(x)) + (if cb == ESC_BT then PrintEscapes(x) else []))
    ensures var n := |(if Signed(cb) then [] else PrintSigns(x)) + (if cb == ESC_BT then PrintEscapes(x) else [])|;
            if cb <= 2 then SQuad(sym) == x && n == 0
            else if cb <= 4 then ParseUQuad(sym, c) == (x, c.Adv(n))
            else if cb <= 6 then SPair(sym) == x && n == 0
            else if cb <= 10 then ParseUPair(sym, c) == (x, c.Adv(n))
            else ParseEscPair(sym, c) == Good(x, c.Adv(n))
  {
    hide Packed, PrintSigns, PrintEscapes, SQuad, SPair, ParseUQuad, ParseUPair, ParseEscPair, CarriesAll, Digits;
    if Signed(cb) {
      SignedChunk(cb, x, sym);
    } else if cb == ESC_BT {
      EscPair(x, sym, c);
    } else {
      assert PrintSigns(x) + [] == PrintSigns(x);
      if cb <= 4 {
        UQuad(cb, x, sym, c);
      } else {
        UPair(cb, x, sym, c);
      }
    }
  }

  lemma {:induction false} BandRoundTrip(t: Tables, cb: nat, x: seq<int>, c: Cursor, acc: seq<int>)
    requires t.Valid() && Tonal(cb) && CarriesAll(cb, x) && |x| == Values(cb, Chunks(cb, |x|))
    requires c.Ahead(PrintBand(t, cb, x))
    ensures ParseBand(t, cb, c, Chunks(cb, |x|), acc) == Good(acc + x, c.Adv(|PrintBand(t, cb, x)|))
    decreases |x|
  {
    hide Tables.Valid, Cursor.Ahead, PrintChunk, ParseChunk;
    if |x| == 0 {
      assert acc + x == acc;
    } else {
      var head, tail := x[..Dim(cb)], x[Dim(cb)..];
      CarriedDigits(cb, head);
      AheadSplit(c, PrintChunk(t, cb, head), PrintBand(t, cb, tail));
      ChunkRoundTrip(t, cb, head, c);
      BandRoundTrip(t, cb, tail, c.Adv(|PrintChunk(t, cb, head)|), acc + head);
      assert acc + head + tail == acc + x;
    }
  }

  /** acc with the coefficients of all tonal bands taken from q. */
  function Keep(bt: seq<nat>, js: seq<Job>, q: seq<int>, acc: seq<int>): (r: seq<int>)
    requires |q| == |acc| == 1024 && forall k :: 0 <= k < |js| ==> js[k].idx < |bt| && js[k].base + js[k].len <= 1024
    ensures |r| == 1024
    decreases |js|
  {
    if |js| == 0 then acc
    else Keep(bt, js[1..], q, if Tonal(bt[js[0].idx]) then Put(acc, js[0].base, Slice(q, js[0])) else acc)
  }

  lemma JobLength(cb: nat, len: nat)
    requires len % 4 == 0
    ensures len == Values(cb, Chunks(cb, len))
  {
  }

  /** The spectrum comes back: every coefficient of every coded band. */
  lemma {:induction false} SpectrumRoundTrip(t: Tables, bt: seq<nat>, js: seq<Job>, q: seq<int>, c: Cursor,
                                             acc: seq<int>)
    requires t.Valid() && AllCarried(bt, js, q) && |acc| == 1024 && c.Ahead(PrintSpectrum(t, bt, js, q))
    ensures forall k :: 0 <= k < |js| ==> js[k].idx < |bt| && js[k].base + js[k].len <= 1024
    ensures ParseSpectrum(t, c, bt, js, acc) == Good(Keep(bt, js, q, acc), c.Adv(|PrintSpectrum(t, bt, js, q)|))
    decreases |js|
  {
    hide Tables.Valid, Cursor.Ahead, PrintBand, ParseBand;
    assert forall k :: 0 <= k < |js| ==> GoodJob(js[k], |bt|);
    if |js| > 0 {
      var cb, x := bt[js[0].idx], Slice(q, js[0]);
      assert GoodJob(js[0], |bt|);
      JobLength(cb, js[0].len);
      var a := if Tonal(cb) then PrintBand(t, cb, x) else [];
      AheadSplit(c, a, PrintSpectrum(t, bt, js[1..], q));
      if Tonal(cb) {
        BandRoundTrip(t, cb, x, c, []);
        assert [] + x == x;
        SpectrumRoundTrip(t, bt, js[1..], q, c.Adv(|a|), Put(acc, js[0].base, x));
      } else {
        SpectrumRoundTrip(t, bt, js[1..], q, c.Adv(0), acc);
      }
    }
  }
}
