/** What the bytes of a unit's PCM are: each sample rounded and saturated to 16
    bits, little-endian, the left channel before the right. */
module DecPcm {
  import opened AacFrame
  import opened AacParse
  import opened AacSyntax
  import opened DecElements
  import opened DecRender

  /** The sample two bytes stand for. */
  function Sample16(lo: nat, hi: nat): int {
    var v := lo + 256 * hi;
    if v >= 0x8000 then v - 0x1_0000 else v
  }

  /** A sample with 9 fraction bits to the nearest integer, halves upwards,
      limited to 16 bits. */
  function Nearest16(v: int): int {
    var r := (v + 256) / 512;
    if r < -0x8000 then -0x8000 else if r > 0x7fff then 0x7fff else r
  }

  /** Scaling, clipping, biasing and taking the upper half round and saturate. */
  lemma SampleIsNearest(v: int)
    ensures var b := SampleBytes(ClipSample(v));
            |b| == 2 && b[0] < 256 && b[1] < 256 && Sample16(b[0], b[1]) == Nearest16(v)
  {
    var c := ClipSample(v);
    UpperHalf(v);
    var n := Nearest16(v);
    assert c / 0x1_0000 == n && -0x8000 <= n <= 0x7fff;
    assert n % 0x1_0000 == if n < 0 then n + 0x1_0000 else n;
  }

  lemma UpperHalf(v: int)
    ensures ClipSample(v) / 0x1_0000 == Nearest16(v)
  {
  }

  lemma {:induction false} MonoLength(x: seq<int>)
    ensures |MonoBytes(x)| == 2 * |x|
    decreases |x|
  {
    if |x| > 0 {
      MonoLength(x[..|x| - 1]);
    }
  }

  lemma {:induction false} StereoLength(l: seq<int>, r: seq<int>)
    requires |l| == |r|
    ensures |StereoBytes(l, r)| == 4 * |l|
    decreases |l|
  {
    if |l| > 0 {
      StereoLength(l[..|l| - 1], r[..|r| - 1]);
    }
  }

  /** Bytes 2i and 2i + 1 are sample i. */
  lemma {:induction false} MonoBytesAt(x: seq<int>, i: nat)
    requires i < |x|
    ensures |MonoBytes(x)| == 2 * |x| && MonoBytes(x)[2 * i..2 * i + 2] == SampleBytes(x[i])
  {
    hide SampleBytes;
    var before := x[..|x| - 1];
    MonoLength(x);
    MonoLength(before);
    if i < |x| - 1 {
      MonoBytesAt(before, i);
      assert MonoBytes(x)[2 * i..2 * i + 2] == MonoBytes(before)[2 * i..2 * i + 2];
    } else {
      assert MonoBytes(x)[2 * i..2 * i + 2] == SampleBytes(x[i]);
    }
  }

  /** Bytes 4i to 4i + 3 are sample i of the left channel, then of the right. */
  lemma {:induction false} StereoBytesAt(l: seq<int>, r: seq<int>, i: nat)
    requires i < |l| == |r|
    ensures |StereoBytes(l, r)| == 4 * |l|
    ensures StereoBytes(l, r)[4 * i..4 * i + 2] == SampleBytes(l[i])
    ensures StereoBytes(l, r)[4 * i + 2..4 * i + 4] == SampleBytes(r[i])
  {
    var (l', r') := (l[..|l| - 1], r[..|r| - 1]);
    StereoLength(l, r);
    StereoLength(l', r');
    var (b, b') := (StereoBytes(l, r), StereoBytes(l', r'));
    if i < |l| - 1 {
      StereoBytesAt(l', r', i);
      assert b[4 * i..4 * i + 2] == b'[4 * i..4 * i + 2];
      assert b[4 * i + 2..4 * i + 4] == b'[4 * i + 2..4 * i + 4];
    } else {
      assert b == b' + SampleBytes(l[i]) + SampleBytes(r[i]);
    }
  }

  /** The samples of a channel before they are rounded. */
  ghost function Samples(k: Kernels, t: Tables, s: Symbols, h: WindowHist, x: seq<int>, saved: seq<int>): (r: seq<int>)
    requires k.Valid() && |x| == 1024 && |saved| == 1536
    ensures |r| == 1024
  {
    Output(k, h, Transformed(k, h, Tns(k, t, s, x)), saved)
  }

  /** Noise shaping works with the limit and the bands of the frame's own window
      length, and a channel without it is left alone. */
  lemma TnsLimits(k: Kernels, t: Tables, s: Symbols, x: seq<int>)
    requires k.Valid()
    ensures Tns(k, t, s, x)
            == if s.tns.None? then x
               else if s.ics.seq0 == EIGHT_SHORT then k.tns(x, s.tns.value, s.ics, t.tnsMaxShort, t.shortEdges)
               else k.tns(x, s.tns.value, s.ics, t.tnsMaxLong, t.longEdges)
  {
  }

  lemma MonoPcmAt(x: seq<int>, i: nat)
    requires i < |x|
    ensures var pcm := MonoBytes(Clipped(x));
            |pcm| == 2 * |x| && Sample16(pcm[2 * i], pcm[2 * i + 1]) == Nearest16(x[i])
  {
    hide SampleBytes, ClipSample, MonoBytes, Nearest16, Sample16;
    var pcm := MonoBytes(Clipped(x));
    MonoBytesAt(Clipped(x), i);
    SampleIsNearest(x[i]);
    assert pcm[2 * i..2 * i + 2][0] == pcm[2 * i] && pcm[2 * i..2 * i + 2][1] == pcm[2 * i + 1];
  }

  lemma StereoPcmAt(l: seq<int>, r: seq<int>, i: nat)
    requires i < |l| == |r|
    ensures var pcm := StereoBytes(Clipped(l), Clipped(r));
            && |pcm| == 4 * |l|
            && Sample16(pcm[4 * i], pcm[4 * i + 1]) == Nearest16(l[i])
            && Sample16(pcm[4 * i + 2], pcm[4 * i + 3]) == Nearest16(r[i])
  {
    hide SampleBytes, ClipSample, StereoBytes, Nearest16, Sample16;
    var pcm := StereoBytes(Clipped(l), Clipped(r));
    StereoBytesAt(Clipped(l), Clipped(r), i);
    SampleIsNearest(l[i]);
    SampleIsNearest(r[i]);
    var (a, b) := (pcm[4 * i..4 * i + 2], pcm[4 * i + 2..4 * i + 4]);
    assert a[0] == pcm[4 * i] && a[1] == pcm[4 * i + 1] && b[0] == pcm[4 * i + 2] && b[1] == pcm[4 * i + 3];
  }

  /** Each channel's own window, behind the sequence and shape its predecessor
      left; with a common window the sequence is the first channel's. */
  lemma OwnWindows(t: Tables, e: Element, c0: Chan, c1: Chan)
    requires GoodElement(t, e) && e.Pair?
    ensures PairWindows(e, c0, c1).0 == WindowHist(e.s0.ics.seq0, c0.seq0, e.s0.ics.kb, c0.kb0)
    ensures PairWindows(e, c0, c1).1
            == WindowHist(e.s1.ics.seq0, if e.common then c0.seq0 else c1.seq0, e.s1.ics.kb, c1.kb0)
  {
    assert e.common ==> e.s0.ics == e.s1.ics;
  }

  /** The PCM of a unit is its samples, rounded and saturated, the two channels
      of a pair in turn; the next unit finds the sequences, shapes and overlap
      halves of this one. */
  lemma UnitPcm(k: Kernels, t: Tables, e: Element, o: State, i: nat)
    requires k.Valid() && GoodElement(t, e) && o.Valid(if e.Mono? then 1 else 2) && i < 1024
    ensures var (pcm, o') := Render(k, t, e, o);
            match e {
              case Mono(s) =>
                var h := WindowHist(s.ics.seq0, o.chans[0].seq0, s.ics.kb, o.chans[0].kb0);
                && |pcm| == 2048 && |o'.chans| == 1
                && Sample16(pcm[2 * i], pcm[2 * i + 1])
                   == Nearest16(Samples(k, t, s, h, Spectrum(k, t, s, o.rand).0, o.chans[0].saved)[i])
                && o'.chans[0].seq0 == s.ics.seq0 && o'.chans[0].kb0 == s.ics.kb
              case Pair(common, _, _, s0, s1) =>
                var h0 := WindowHist(s0.ics.seq0, o.chans[0].seq0, s0.ics.kb, o.chans[0].kb0);
                var h1 := WindowHist(s1.ics.seq0, if common then o.chans[0].seq0 else o.chans[1].seq0, s1.ics.kb,
                                     o.chans[1].kb0);
                var x := PairSpectra(k, t, e, o.rand);
                && |pcm| == 4096 && |o'.chans| == 2
                && Sample16(pcm[4 * i], pcm[4 * i + 1]) == Nearest16(Samples(k, t, s0, h0, x.0, o.chans[0].saved)[i])
                && Sample16(pcm[4 * i + 2], pcm[4 * i + 3])
                   == Nearest16(Samples(k, t, s1, h1, x.1, o.chans[1].saved)[i])
                && o'.chans[0].seq0 == s0.ics.seq0 && o'.chans[0].kb0 == s0.ics.kb
                && o'.chans[1].seq0 == s1.ics.seq0 && o'.chans[1].kb0 == s1.ics.kb
            }
  {
    hide Spectrum, PairSpectra, Output, Saved, Transformed, Tns, GoodSymbols, Kernels.Valid, MonoBytes, StereoBytes,
         ClipSample, SampleBytes, Nearest16, Sample16;
    match e {
      case Mono(s) =>
        var h := WindowHist(s.ics.seq0, o.chans[0].seq0, s.ics.kb, o.chans[0].kb0);
        MonoPcmAt(Samples(k, t, s, h, Spectrum(k, t, s, o.rand).0, o.chans[0].saved), i);
      case Pair(_, _, _, s0, s1) =>
        var x := PairSpectra(k, t, e, o.rand);
        var (h0, h1) := PairWindows(e, o.chans[0], o.chans[1]);
        OwnWindows(t, e, o.chans[0], o.chans[1]);
        StereoPcmAt(Samples(k, t, s0, h0, x.0, o.chans[0].saved), Samples(k, t, s1, h1, x.1, o.chans[1].saved), i);
    }
  }
}
