/** From symbols to PCM, as a function of what a unit says and of what earlier
    units left: the noise generator, the overlap memory and the previous window.
    The transforms and fixed-point scalings are parameters. */
module DecRender {
  import opened AacSyntax
  import opened AacParse
  import opened AacFrame
  import opened DecElements

  /** A window by length and shape. */
  datatype Win = Win(half: nat, kbd: bool)

  /** The numeric kernels, each with results of the length the caller expects. */
  datatype Kernels = Kernels(
    pow43: seq<int> -> seq<int>,
    subbandScale: (seq<int>, int, nat) -> seq<int>,
    noiseScale: (seq<int>, int) -> seq<int>,
    tns: (seq<int>, seq<seq<Filter>>, Ics, nat, seq<nat>) -> seq<int>,
    mdct: seq<int> -> seq<int>,
    fmul: (seq<int>, seq<int>, Win) -> seq<int>)
  {
    ghost predicate Valid() {
      && (forall x :: |pow43(x)| == |x|)
      && (forall x, s, o :: |subbandScale(x, s, o)| == |x|)
      && (forall x, s :: |noiseScale(x, s)| == |x|)
      && (forall x, f, i, m, e :: |tns(x, f, i, m, e)| == |x|)
      && (forall x :: |mdct(x)| == |x|)
      && (forall a, b, w :: |fmul(a, b, w)| == 2 * |a|)
    }
  }

  // ----- dequantization

  const MOD32 := 0x1_0000_0000

  /** A value in the int32 range. */
  function Wrap32(v: int): int {
    var u := v % MOD32;
    if u >= 0x8000_0000 then u - MOD32 else u
  }

  /** The noise generator. */
  function LcgRandom(prev: int): int {
    Wrap32((prev % MOD32) * 1664525 + 1013904223)
  }

  /** n raw noise values, and the generator behind them. */
  function Randoms(rand: int, n: nat): (r: (seq<int>, int))
    ensures |r.0| == n
    decreases n
  {
    if n == 0 then ([], rand)
    else
      var (x, s) := Randoms(rand, n - 1);
      (x + [LcgRandom(s) / 8], LcgRandom(s))
  }

  /** One band of one window: noise is filled in, coded bands are scaled, the
      others keep what they have. */
  function DequantBand(k: Kernels, cb: nat, sf: int, q: seq<int>, x: seq<int>, rand: int): (r: (seq<int>, int))
    requires k.Valid() && |q| == |x|
    ensures |r.0| == |x|
  {
    if cb == NOISE_BT then (k.noiseScale(Randoms(rand, |x|).0, sf), Randoms(rand, |x|).1)
    else if Tonal(cb) then (k.subbandScale(k.pow43(q), sf, 34), rand)
    else (x, rand)
  }

  /** All bands of all windows, in bitstream order. */
  function Dequant(k: Kernels, bt: seq<nat>, sf: seq<int>, js: seq<Job>, q: seq<int>, x: seq<int>,
                   rand: int): (r: (seq<int>, int))
    requires k.Valid() && |sf| == |bt| && |q| == |x| == 1024 && GoodJobs(js, |bt|)
    ensures |r.0| == 1024
    decreases |js|
  {
    hide Kernels.Valid, DequantBand;
    if |js| == 0 then (x, rand)
    else
      var j := js[0];
      assert GoodJob(j, |bt|);
      var (y, rand') := DequantBand(k, bt[j.idx], sf[j.idx], q[j.base..j.base + j.len], x[j.base..j.base + j.len],
                                    rand);
      Dequant(k, bt, sf, js[1..], q, Put(x, j.base, y), rand')
  }

  // ----- stereo

  function Sums(a: seq<int>, b: seq<int>): (r: seq<int>)
    requires |a| == |b|
    ensures |r| == |a|
  {
    seq(|a|, i requires 0 <= i < |a| => Wrap32(a[i] + b[i]))
  }

  function Differences(a: seq<int>, b: seq<int>): (r: seq<int>)
    requires |a| == |b|
    ensures |r| == |a|
  {
    seq(|a|, i requires 0 <= i < |a| => Wrap32(a[i] - b[i]))
  }

  /** The bands the butterflies apply to. */
  predicate IsMidSide(bt0: seq<nat>, bt1: seq<nat>, mask: seq<nat>, idx: nat)
    requires |bt0| == |bt1| == |mask| && idx < |bt0|
  {
    mask[idx] != 0 && bt0[idx] < NOISE_BT && bt1[idx] < NOISE_BT
  }

  /** Both spectra with one band of one window replaced by sum and difference. */
  function Butterfly(j: Job, x0: seq<int>, x1: seq<int>): (r: (seq<int>, seq<int>))
    requires |x0| == |x1| == 1024 && j.base + j.len <= 1024
    ensures |r.0| == |r.1| == 1024
  {
    var (a, b) := (x0[j.base..j.base + j.len], x1[j.base..j.base + j.len]);
    (Put(x0, j.base, Sums(a, b)), Put(x1, j.base, Differences(a, b)))
  }

  /** Sum and difference in the bands the mask selects. */
  function MidSide(bt0: seq<nat>, bt1: seq<nat>, mask: seq<nat>, js: seq<Job>, x0: seq<int>,
                   x1: seq<int>): (r: (seq<int>, seq<int>))
    requires |bt0| == |bt1| == |mask| && |x0| == |x1| == 1024 && GoodJobs(js, |bt0|)
    ensures |r.0| == |r.1| == 1024
    decreases |js|
  {
    hide Butterfly, IsMidSide;
    if |js| == 0 then (x0, x1)
    else
      assert GoodJob(js[0], |bt0|);
      var y := if IsMidSide(bt0, bt1, mask, js[0].idx) then Butterfly(js[0], x0, x1) else (x0, x1);
      MidSide(bt0, bt1, mask, js[1..], y.0, y.1)
  }

  /** The scale of an intensity band; the mask flips its sign when M/S is on. */
  function IntensityScale(bt: nat, sf: int, on: bool, bit: nat): int {
    (if on then (-1 + 2 * (bt - 14)) * (1 - 2 * bit) else -1 + 2 * (bt - 14)) * sf
  }

  /** Intensity bands of the second channel, from the first. */
  function Intensity(k: Kernels, bt: seq<nat>, sf: seq<int>, on: bool, mask: seq<nat>, js: seq<Job>, x0: seq<int>,
                     x1: seq<int>): (r: seq<int>)
    requires k.Valid() && |bt| == |sf| && (on ==> |mask| == |bt|) && |x0| == |x1| == 1024 && GoodJobs(js, |bt|)
    ensures |r| == 1024
    decreases |js|
  {
    if |js| == 0 then x1
    else
      var j := js[0];
      assert GoodJob(j, |bt|);
      if bt[j.idx] == INTENSITY_BT || bt[j.idx] == INTENSITY_BT2 then
        var scale := IntensityScale(bt[j.idx], sf[j.idx], on, if on then mask[j.idx] else 0);
        Intensity(k, bt, sf, on, mask, js[1..], x0,
                  Put(x1, j.base, k.subbandScale(x0[j.base..j.base + j.len], scale, 23)))
      else Intensity(k, bt, sf, on, mask, js[1..], x0, x1)
  }

  // ----- time domain

  function Tns(k: Kernels, t: Tables, s: Symbols, x: seq<int>): (r: seq<int>)
    requires k.Valid()
    ensures |r| == |x|
  {
    if s.tns.None? then x
    else k.tns(x, s.tns.value, s.ics, if s.ics.Short() then t.tnsMaxShort else t.tnsMaxLong, t.Edges(s.ics.Short()))
  }

  /** The inverse transform: one long block or eight short ones. */
  function Blocks(k: Kernels, x: seq<int>, n: nat): (b: seq<int>)
    requires k.Valid() && n <= 8 && |x| == 1024
    ensures |b| == 128 * n
  {
    if n == 0 then [] else Blocks(k, x, n - 1) + k.mdct(x[128 * (n - 1)..128 * n])
  }

  /** Both overlaps are long. */
  predicate LongOverlap(h: WindowHist) {
    (h.seq1 == ONLY_LONG || h.seq1 == LONG_STOP) && (h.seq0 == ONLY_LONG || h.seq0 == LONG_START)
  }

  function ShortWin(h: WindowHist): Win { Win(64, h.kb0 != 0) }

  function PrevShortWin(h: WindowHist): Win { Win(64, h.kb1 != 0) }

  /** The overlap of short blocks n and n+1. */
  function ShortOverlap(k: Kernels, b: seq<int>, n: nat, w: Win): (r: seq<int>)
    requires k.Valid() && |b| == 1024 && n < 7
    ensures |r| == 128
  {
    k.fmul(b[128 * n + 64..128 * n + 128], b[128 * n + 128..128 * n + 192], w)
  }

  /** The samples of the frame: the overlap with the saved half, then for short
      blocks their overlaps with each other. */
  function Output(k: Kernels, h: WindowHist, b: seq<int>, saved: seq<int>): (r: seq<int>)
    requires k.Valid() && |b| == 1024 && |saved| == 1536
    ensures |r| == 1024
  {
    if LongOverlap(h) then k.fmul(saved[..512], b[..512], Win(512, h.kb1 != 0))
    else if h.seq0 == EIGHT_SHORT then
      var w := ShortWin(h);
      saved[..448] + k.fmul(saved[448..512], b[..64], PrevShortWin(h))
      + ShortOverlap(k, b, 0, w) + ShortOverlap(k, b, 1, w) + ShortOverlap(k, b, 2, w) + ShortOverlap(k, b, 3, w)[..64]
    else saved[..448] + k.fmul(saved[448..512], b[..64], PrevShortWin(h)) + b[64..512]
  }

  /** What the next frame overlaps with. */
  function Saved(k: Kernels, h: WindowHist, b: seq<int>, saved: seq<int>): (r: seq<int>)
    requires k.Valid() && |b| == 1024 && |saved| == 1536
    ensures |r| == 1536
  {
    (if h.seq0 == EIGHT_SHORT then
       var w := ShortWin(h);
       ShortOverlap(k, b, 3, w)[64..] + ShortOverlap(k, b, 4, w) + ShortOverlap(k, b, 5, w) + ShortOverlap(k, b, 6, w)
           + b[960..1024]
     else if h.seq0 == LONG_START then b[512..960] + b[960..1024]
     else b[512..1024])
    + saved[512..]
  }

  function Transformed(k: Kernels, h: WindowHist, x: seq<int>): (b: seq<int>)
    requires k.Valid() && |x| == 1024
    ensures |b| == 1024
  {
    if h.seq0 == EIGHT_SHORT then Blocks(k, x, 8) else k.mdct(x)
  }

  /** A sample scaled into the 32-bit output range, with the rounding bias. */
  function ClipSample(v: int): int {
    var w := v * 128;
    (if w < -0x8000_0000 then -0x8000_0000 else if w > 0x7fff_ffff - 0x8000 then 0x7fff_ffff - 0x8000 else w) + 0x8000
  }

  function Clipped(x: seq<int>): (r: seq<int>)
    ensures |r| == |x|
  {
    seq(|x|, i requires 0 <= i < |x| => ClipSample(x[i]))
  }

  /** The upper half of a sample, as two little-endian bytes. */
  function SampleBytes(v: int): seq<nat> {
    var s: nat := (v / 0x1_0000) % 0x1_0000;
    [s % 256, s / 256]
  }

  function MonoBytes(x: seq<int>): seq<nat> {
    if |x| == 0 then [] else MonoBytes(x[..|x| - 1]) + SampleBytes(x[|x| - 1])
  }

  function StereoBytes(l: seq<int>, r: seq<int>): seq<nat>
    requires |l| == |r|
  {
    if |l| == 0 then []
    else StereoBytes(l[..|l| - 1], r[..|r| - 1]) + SampleBytes(l[|l| - 1]) + SampleBytes(r[|r| - 1])
  }

  // ----- a whole unit

  /** What earlier units leave a channel with, as far as later ones can see. */
  datatype Chan = Chan(seq0: nat, kb0: nat, saved: seq<int>)

  datatype State = State(rand: int, chans: seq<Chan>) {
    ghost predicate Valid(channels: nat) {
      |chans| == channels && forall c :: 0 <= c < |chans| ==> |chans[c].saved| == 1536
    }
  }

  /** What a unit's element can be. */
  ghost predicate GoodSymbols(t: Tables, s: Symbols) {
    GeoOf(t, s.ics).Valid() && |s.bt| == |s.sfo| == GeoOf(t, s.ics).Bands() && |s.q| == 1024
  }

  ghost predicate GoodElement(t: Tables, e: Element) {
    match e
    case Mono(s) => GoodSymbols(t, s)
    case Pair(common, ms, mask, s0, s1) =>
      && GoodSymbols(t, s0) && GoodSymbols(t, s1) && (common ==> s0.ics == s1.ics)
      && (ms != 0 ==> common && |mask| == |s0.bt|)
  }

  ghost function ChannelJobs(t: Tables, s: Symbols): (js: seq<Job>)
    requires GoodSymbols(t, s)
    ensures GoodJobs(js, |s.bt|)
  {
    JobsGood(GeoOf(t, s.ics));
    Jobs(GeoOf(t, s.ics), 0, 0, 0)
  }

  ghost function Spectrum(k: Kernels, t: Tables, s: Symbols, rand: int): (r: (seq<int>, int))
    requires k.Valid() && GoodSymbols(t, s)
    ensures |r.0| == 1024
  {
    Dequant(k, s.bt, SfsOf(s.bt, s.sfo), ChannelJobs(t, s), s.q, seq(1024, _ => 0), rand)
  }

  /** One channel from its spectrum to clipped samples and its next state. */
  function Finish(k: Kernels, t: Tables, s: Symbols, h: WindowHist, x: seq<int>, saved: seq<int>): (seq<int>, Chan)
    requires k.Valid() && |x| == 1024 && |saved| == 1536
  {
    var b := Transformed(k, h, Tns(k, t, s, x));
    (Clipped(Output(k, h, b, saved)), Chan(h.seq0, h.kb0, Saved(k, h, b, saved)))
  }

  ghost function PairSpectra(k: Kernels, t: Tables, e: Element, rand: int): (r: (seq<int>, seq<int>, int))
    requires k.Valid() && GoodElement(t, e) && e.Pair?
    ensures |r.0| == |r.1| == 1024
  {
    var (x0, rand0) := Spectrum(k, t, e.s0, rand);
    var (x1, rand1) := Spectrum(k, t, e.s1, rand0);
    var (y0, y1) := if e.common && e.ms != 0 then MidSide(e.s0.bt, e.s1.bt, e.mask, ChannelJobs(t, e.s0), x0, x1)
        else (x0, x1);
    (y0, Intensity(k, e.s1.bt, SfsOf(e.s1.bt, e.s1.sfo), e.ms != 0, e.mask, ChannelJobs(t, e.s1), y0, y1), rand1)
  }

  /** The window pairs of a pair element, from what was there before. */
  function PairWindows(e: Element, c0: Chan, c1: Chan): (WindowHist, WindowHist)
    requires e.Pair?
  {
    var (i0, i1) := (e.s0.ics, e.s1.ics);
    (WindowHist(i0.seq0, c0.seq0, i0.kb, c0.kb0),
     if e.common then WindowHist(i0.seq0, c0.seq0, i0.kb, c1.kb0) else WindowHist(i1.seq0, c1.seq0, i1.kb, c1.kb0))
  }

  /** The unit's PCM and the state after it. */
  ghost function Render(k: Kernels, t: Tables, e: Element, o: State): (r: (seq<nat>, State))
    requires k.Valid() && GoodElement(t, e) && o.Valid(if e.Mono? then 1 else 2)
  {
    match e
    case Mono(s) =>
      var (x, rand) := Spectrum(k, t, s, o.rand);
      var h := WindowHist(s.ics.seq0, o.chans[0].seq0, s.ics.kb, o.chans[0].kb0);
      var (out, c) := Finish(k, t, s, h, x, o.chans[0].saved);
      (MonoBytes(out), State(rand, [c]))
    case Pair(_, _, _, s0, s1) =>
      var (x0, x1, rand) := PairSpectra(k, t, e, o.rand);
      var (h0, h1) := PairWindows(e, o.chans[0], o.chans[1]);
      var (out0, c0) := Finish(k, t, s0, h0, x0, o.chans[0].saved);
      var (out1, c1) := Finish(k, t, s1, h1, x1, o.chans[1].saved);
      (StereoBytes(out0, out1), State(rand, [c0, c1]))
  }
}
