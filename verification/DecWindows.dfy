/** Which window each overlap of the decoder gets. However samples and window
    values are multiplied, the frame comes out as if one window of full length had
    been applied: the one the encoder's windows agree with. */
module DecWindows {
  import opened AacSyntax
  import opened DecElements
  import opened DecRender
  import W = WindowSwitch

  /** What two overlapping samples become under the two window values at hand,
      before and after the middle of the overlap. */
  datatype Mix = Mix(early: (int, int, W.Sample, W.Sample) -> int, late: (int, int, W.Sample, W.Sample) -> int)

  predicate Word(x: int) {
    -0x8000_0000 <= x < 0x8000_0000
  }

  ghost predicate Words(s: seq<int>) {
    forall i :: 0 <= i < |s| ==> Word(s[i])
  }

  /** Where the window is 0 and 1 the samples stay what they are. */
  ghost predicate Neutral(m: Mix) {
    forall a, b :: Word(a) && Word(b) ==> m.early(a, b, W.Zero, W.One) == a && m.late(a, b, W.Zero, W.One) == b
  }

  /** The overlap of an old half with a new one under a window: the new half
      rises along the window, the old one falls along its reverse. */
  function Overlapped(m: Mix, was: seq<int>, now: seq<int>, win: seq<W.Sample>): (r: seq<int>)
    requires |was| == |now| && |win| == 2 * |was|
    ensures |r| == |win|
  {
    var n := |win|;
    seq(n, i requires 0 <= i < n == |win| && |was| == |now| && n == 2 * |was| =>
      if i < |was| then m.early(was[i], now[|was| - 1 - i], win[i], win[n - 1 - i])
      else m.late(was[n - 1 - i], now[i - |was|], win[n - 1 - i], win[i]))
  }

  function Bit(kb: nat): nat { if kb != 0 then 1 else 0 }

  /** The kernel multiplies with the slope it is given. */
  ghost predicate WindowsWith(k: Kernels, m: Mix) {
    forall a, b, w: Win :: |a| == |b| == w.half ==>
      k.fmul(a, b, w) == Overlapped(m, a, b, W.Rise(2 * w.half, if w.kbd then 1 else 0))
  }

  ghost predicate Fits(k: Kernels, m: Mix, b: seq<int>, saved: seq<int>) {
    && k.Valid() && WindowsWith(k, m) && Neutral(m)
    && |b| == 1024 && |saved| == 1536 && Words(b) && Words(saved)
  }

  // ----- the fixed-point multiplication is such a kernel

  /** The rounded product of two samples with two window values of 31 fraction
      bits; val gives the table entries. */
  function FixedMix(val: (nat, nat, nat) -> int): Mix {
    Mix((a, b, wi, wj) => Wrap32((a * Fraction(val, wj) - b * Fraction(val, wi) + 0x4000_0000) / 0x8000_0000),
        (a, b, wi, wj) => Wrap32((a * Fraction(val, wi) + b * Fraction(val, wj) + 0x4000_0000) / 0x8000_0000))
  }

  function Fraction(val: (nat, nat, nat) -> int, w: W.Sample): int {
    match w
    case Zero => 0
    case One => 0x8000_0000
    case Slope(len, shape, i) => val(len, shape, i)
  }

  lemma Rounded(a: int)
    requires Word(a)
    ensures Wrap32((a * 0x8000_0000 + 0x4000_0000) / 0x8000_0000) == a
  {
  }

  lemma FixedIsNeutral(val: (nat, nat, nat) -> int)
    ensures Neutral(FixedMix(val))
  {
    hide Wrap32;
    forall a, b | Word(a) && Word(b)
      ensures FixedMix(val).early(a, b, W.Zero, W.One) == a && FixedMix(val).late(a, b, W.Zero, W.One) == b
    {
      Rounded(a);
      Rounded(b);
    }
  }

  // ----- the transform

  /** Short block n is the transform of its own 128 coefficients. */
  lemma {:induction false} BlockAt(k: Kernels, x: seq<int>, m: nat, n: nat)
    requires k.Valid() && n < m <= 8 && |x| == 1024
    ensures Blocks(k, x, m)[128 * n..128 * n + 128] == k.mdct(x[128 * n..128 * n + 128])
  {
    var before := Blocks(k, x, m - 1);
    if n < m - 1 {
      BlockAt(k, x, m - 1, n);
      assert Blocks(k, x, m)[128 * n..128 * n + 128] == before[128 * n..128 * n + 128];
    }
  }

  lemma TransformedIs(k: Kernels, h: WindowHist, x: seq<int>)
    requires k.Valid() && |x| == 1024
    ensures h.seq0 != EIGHT_SHORT ==> Transformed(k, h, x) == k.mdct(x)
    ensures h.seq0 == EIGHT_SHORT ==>
              forall n: nat :: n < 8 ==>
                Transformed(k, h, x)[128 * n..128 * n + 128] == k.mdct(x[128 * n..128 * n + 128])
  {
    forall n: nat | n < 8 && h.seq0 == EIGHT_SHORT
      ensures Transformed(k, h, x)[128 * n..128 * n + 128] == k.mdct(x[128 * n..128 * n + 128])
    {
      BlockAt(k, x, 8, n);
    }
  }

  // ----- the overlap with the frame before

  /** Sample i of an overlap under the short synthesis window: untouched on the
      outside, the short slope in the middle. */
  lemma ShortSynthesisAt(m: Mix, was: seq<int>, now: seq<int>, shape: nat, i: nat)
    requires |was| == |now| == 512 && Words(was) && Words(now) && Neutral(m) && i < 1024
    ensures var win := W.Flat(448, W.Zero) + W.Rise(128, shape) + W.Flat(448, W.One);
            Overlapped(m, was, now, win)[i]
            == if i < 448 then was[i]
               else if i < 576 then Overlapped(m, was[448..], now[..64], W.Rise(128, shape))[i - 448]
               else now[i - 512]
  {
    var slope := W.Rise(128, shape);
    var win := W.Flat(448, W.Zero) + slope + W.Flat(448, W.One);
    ShortSynthesisValue(shape, i);
    ShortSynthesisValue(shape, 1023 - i);
    OverlappedAt(m, was, now, win, i);
    if 448 <= i < 576 {
      OverlappedAt(m, was[448..], now[..64], slope, i - 448);
    }
    hide Overlapped, W.Flat, W.Rise;
  }

  lemma ShortSynthesisValue(shape: nat, i: nat)
    requires i < 1024
    ensures (W.Flat(448, W.Zero) + W.Rise(128, shape) + W.Flat(448, W.One))[i]
            == if i < 448 then W.Zero else if i < 576 then W.Rise(128, shape)[i - 448] else W.One
  {
    hide W.Rise;
  }

  lemma OverlappedAt(m: Mix, was: seq<int>, now: seq<int>, win: seq<W.Sample>, i: nat)
    requires |was| == |now| && |win| == 2 * |was| && i < |win|
    ensures Overlapped(m, was, now, win)[i]
            == if i < |was| then m.early(was[i], now[|was| - 1 - i], win[i], win[|win| - 1 - i])
               else m.late(was[|win| - 1 - i], now[i - |was|], win[|win| - 1 - i], win[i])
  {
  }

  /** The overlap with the frame before is that of the whole half under the
      synthesis window of the two sequences and the earlier shape; behind it a
      frame of short blocks goes on with their own overlaps. */
  lemma HeadWindow(k: Kernels, m: Mix, h: WindowHist, b: seq<int>, saved: seq<int>)
    requires Fits(k, m, b, saved)
    ensures |W.Synthesis(h.seq1, h.seq0, Bit(h.kb1))| == 1024
    ensures var whole := Overlapped(m, saved[..512], b[..512], W.Synthesis(h.seq1, h.seq0, Bit(h.kb1)));
            && Output(k, h, b, saved)[..576] == whole[..576]
            && (h.seq0 != EIGHT_SHORT ==> Output(k, h, b, saved) == whole)
  {
    if !LongOverlap(h) {
      var whole := Overlapped(m, saved[..512], b[..512], W.Synthesis(h.seq1, h.seq0, Bit(h.kb1)));
      var out := Output(k, h, b, saved);
      var mid := k.fmul(saved[448..512], b[..64], PrevShortWin(h));
      assert mid == Overlapped(m, saved[448..512], b[..64], W.Rise(128, Bit(h.kb1)));
      assert saved[..512][448..] == saved[448..512] && b[..512][..64] == b[..64];
      hide Overlapped, W.Rise, W.Flat, WindowsWith, Neutral, Kernels.Valid, ShortOverlap;
      forall i: nat | i < 1024 && (i < 576 || h.seq0 != EIGHT_SHORT) ensures out[i] == whole[i] {
        ShortSynthesisAt(m, saved[..512], b[..512], Bit(h.kb1), i);
      }
    }
  }

  function ShortRun(k: Kernels, b: seq<int>, w: Win, n: nat): (r: seq<int>)
    requires k.Valid() && |b| == 1024 && n <= 7
    ensures |r| == 128 * n
  {
    if n == 0 then [] else ShortRun(k, b, w, n - 1) + ShortOverlap(k, b, n - 1, w)
  }

  lemma {:induction false} ShortRunAt(k: Kernels, b: seq<int>, w: Win, n: nat, i: nat)
    requires k.Valid() && |b| == 1024 && i < n <= 7
    ensures ShortRun(k, b, w, n)[128 * i..128 * i + 128] == ShortOverlap(k, b, i, w)
  {
    hide ShortOverlap, Kernels.Valid;
    var before := ShortRun(k, b, w, n - 1);
    if i < n - 1 {
      ShortRunAt(k, b, w, n - 1, i);
      assert ShortRun(k, b, w, n)[128 * i..128 * i + 128] == before[128 * i..128 * i + 128];
    }
  }

  lemma ShortRuns(k: Kernels, b: seq<int>, w: Win)
    requires k.Valid() && |b| == 1024
    ensures ShortRun(k, b, w, 4)[..448] == ShortOverlap(k, b, 0, w) + ShortOverlap(k, b, 1, w)
                                           + ShortOverlap(k, b, 2, w) + ShortOverlap(k, b, 3, w)[..64]
    ensures ShortRun(k, b, w, 7) == ShortRun(k, b, w, 4)[..448]
                                    + (ShortOverlap(k, b, 3, w)[64..] + ShortOverlap(k, b, 4, w)
                                       + ShortOverlap(k, b, 5, w) + ShortOverlap(k, b, 6, w))
  {
    hide ShortOverlap, Kernels.Valid;
    assert ShortRun(k, b, w, 0) == [];
    assert ShortRun(k, b, w, 1) == ShortOverlap(k, b, 0, w);
    assert ShortRun(k, b, w, 2) == ShortOverlap(k, b, 0, w) + ShortOverlap(k, b, 1, w);
    assert ShortRun(k, b, w, 4) == ShortRun(k, b, w, 3) + ShortOverlap(k, b, 3, w);
    assert ShortRun(k, b, w, 5) == ShortRun(k, b, w, 4) + ShortOverlap(k, b, 4, w);
    assert ShortRun(k, b, w, 6) == ShortRun(k, b, w, 5) + ShortOverlap(k, b, 5, w);
    assert ShortRun(k, b, w, 7) == ShortRun(k, b, w, 6) + ShortOverlap(k, b, 6, w);
  }

  /** Behind the head, output and memory are the seven overlaps in order. */
  lemma ShortStream(k: Kernels, h: WindowHist, b: seq<int>, saved: seq<int>)
    requires k.Valid() && |b| == 1024 && |saved| == 1536 && h.seq0 == EIGHT_SHORT
    ensures (Output(k, h, b, saved) + Saved(k, h, b, saved))[576..1472] == ShortRun(k, b, ShortWin(h), 7)
  {
    var w := ShortWin(h);
    ShortRuns(k, b, w);
    hide ShortOverlap, ShortRun;
    var head := saved[..448] + k.fmul(saved[448..512], b[..64], PrevShortWin(h));
    assert Output(k, h, b, saved) == head + ShortRun(k, b, w, 4)[..448];
  }

  /** The eight short blocks overlap each other under the short slope of the
      frame's own shape; the overlaps run on into what is saved. */
  lemma InnerWindows(k: Kernels, m: Mix, h: WindowHist, b: seq<int>, saved: seq<int>, n: nat)
    requires Fits(k, m, b, saved) && h.seq0 == EIGHT_SHORT && n < 7
    ensures (Output(k, h, b, saved) + Saved(k, h, b, saved))[576 + 128 * n..704 + 128 * n]
            == Overlapped(m, b[128 * n + 64..128 * n + 128], b[128 * n + 128..128 * n + 192], W.Rise(128, Bit(h.kb0)))
  {
    hide Output, Saved, ShortRun, ShortOverlap, Overlapped, W.Rise;
    ShortStream(k, h, b, saved);
    ShortRunAt(k, b, ShortWin(h), 7, n);
    ShortOverlapIs(k, m, h, b, n);
    Within(Output(k, h, b, saved) + Saved(k, h, b, saved), 576, 1472, 128 * n, 128 * n + 128);
  }

  lemma ShortOverlapIs(k: Kernels, m: Mix, h: WindowHist, b: seq<int>, n: nat)
    requires k.Valid() && WindowsWith(k, m) && |b| == 1024 && n < 7
    ensures ShortOverlap(k, b, n, ShortWin(h))
            == Overlapped(m, b[128 * n + 64..128 * n + 128], b[128 * n + 128..128 * n + 192], W.Rise(128, Bit(h.kb0)))
  {
    hide Overlapped, W.Rise;
  }

  lemma Within<T>(s: seq<T>, lo: nat, hi: nat, from: nat, to: nat)
    requires lo <= hi <= |s| && from <= to <= hi - lo
    ensures s[lo..hi][from..to] == s[lo + from..lo + to]
  {
    var part := s[lo..hi];
    forall i | 0 <= i < to - from
      ensures part[from..to][i] == s[lo + from..lo + to][i]
    {
      assert part[from + i] == s[lo + from + i];
    }
  }

  /** The second half of the last block is kept as it is, and the memory behind
      it untouched. */
  lemma TailKept(k: Kernels, h: WindowHist, b: seq<int>, saved: seq<int>)
    requires k.Valid() && |b| == 1024 && |saved| == 1536
    ensures Saved(k, h, b, saved)[512..] == saved[512..]
    ensures h.seq0 != EIGHT_SHORT ==> Saved(k, h, b, saved)[..512] == b[512..]
    ensures h.seq0 == EIGHT_SHORT ==> Saved(k, h, b, saved)[448..512] == b[960..]
  {
  }

  /** For every sequence of decisions the decoder that follows the encoder's
      windows overlaps each frame under the window the encoder rose along, which
      is the reverse of the one it fell along in the frame before; the exception
      is the overlap after a first frame that is ONLY_LONG. */
  lemma DecoderMatches(ds: seq<W.Decision>, t: nat, k: Kernels, m: Mix, h: WindowHist, b: seq<int>, saved: seq<int>)
    requires 0 < t < |ds| && !(t == 1 && W.SeqAt(ds, 0) == ONLY_LONG) && Fits(k, m, b, saved)
    requires h.seq0 == W.SeqAt(ds, t) && W.Follows(h.seq1, h.seq0) && Bit(h.kb1) == W.ShapeAt(ds, t - 1)
    ensures var win := W.LeftHalf(W.SeqAt(ds, t), W.ShapeAt(ds, t), W.ShapeAt(ds, t - 1));
            && |win| == 1024
            && win == W.Reversed(W.RightHalf(W.SeqAt(ds, t - 1), W.ShapeAt(ds, t - 1), W.ShapeAt(ds, t - 2)))
            && Output(k, h, b, saved)[..576] == Overlapped(m, saved[..512], b[..512], win)[..576]
            && (h.seq0 != EIGHT_SHORT ==> Output(k, h, b, saved) == Overlapped(m, saved[..512], b[..512], win))
  {
    hide Output, Fits, Overlapped, W.Synthesis, W.LeftHalf, W.RightHalf, W.Reversed, W.WindowAt;
    W.RunIsLegal(ds, t);
    W.RunAgrees(ds, t, h.seq1);
    HeadWindow(k, m, h, b, saved);
  }
}
