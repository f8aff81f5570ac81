/** What the noise shaping filters are, without their recursions: a channel's
    regions from the transmitted lengths, and the lattice of the reflection
    coefficients inside each. */
module TnsLattice {
  import opened TnsFilter

  // ----- the lattice

  /** Forward and backward error of the first n stages at m; what lies before the
      region is zero. */
  function Forward(refl: seq<real>, x: int -> real, n: nat, m: int): real
    requires n <= |refl|
    decreases n
  {
    if n == 0 then x(m) else Forward(refl, x, n - 1, m) - Tap(refl[n - 1], Backward(refl, x, n - 1, m - 1))
  }

  function Backward(refl: seq<real>, x: int -> real, n: nat, m: int): real
    requires n <= |refl|
    decreases n
  {
    if n == 0 then x(m) else Backward(refl, x, n - 1, m - 1) - Tap(refl[n - 1], Forward(refl, x, n - 1, m))
  }

  /** p[lo]*x(at+lo) + ... + p[hi-1]*x(at+hi-1) */
  function Span(p: seq<real>, x: int -> real, at: int, lo: nat, hi: nat): real
    requires lo <= hi <= |p|
  {
    if lo == hi then 0.0 else Span(p, x, at, lo, hi - 1) + Tap(p[hi - 1], x(at + hi - 1))
  }

  /** p[0]*x(m-1) + ... + p[n-1]*x(m-n) */
  function Before(p: seq<real>, x: int -> real, m: int, n: nat): real
    requires n <= |p|
  {
    if n == 0 then 0.0 else Before(p, x, m, n - 1) + Tap(p[n - 1], x(m - n))
  }

  lemma {:induction false} SpanFront(p: seq<real>, x: int -> real, at: int, lo: nat, hi: nat)
    requires lo < hi <= |p|
    ensures Span(p, x, at, lo, hi) == Tap(p[lo], x(at + lo)) + Span(p, x, at, lo + 1, hi)
    decreases hi
  {
    hide Tap;
    if lo + 1 < hi {
      SpanFront(p, x, at, lo, hi - 1);
    }
  }

  /** The mirrored sum. */
  function Mirrored(p: seq<real>, x: int -> real, m: int, n: nat): real
    requires n <= |p|
  {
    if n == 0 then 0.0 else Mirrored(p, x, m, n - 1) + Tap(p[|p| - n], x(m - n))
  }

  lemma {:induction false} MirroredIsSpan(p: seq<real>, x: int -> real, m: int, n: nat)
    requires n <= |p|
    ensures Mirrored(p, x, m, n) == Span(p, x, m - |p|, |p| - n, |p|)
  {
    hide Tap;
    if n > 0 {
      MirroredIsSpan(p, x, m, n - 1);
      assert m - |p| + (|p| - n) == m - n;
      SpanFront(p, x, m - |p|, |p| - n, |p|);
    }
  }

  /** The predictor of one stage more. */
  ghost predicate Grown(p: seq<real>, q: seq<real>, k: real) {
    |q| == |p| + 1 && q[|p|] == -k && forall j: nat :: j < |p| ==> q[j] == p[j] - Tap(k, p[|p| - 1 - j])
  }

  lemma Regroup(a: real, b: real, k: real, c: real, d: real, x: real)
    ensures (a - Tap(k, c)) + Tap(b - Tap(k, d), x) == (a + Tap(b, x)) - Tap(k, c + Tap(d, x))
  {
    assert (b - k * d) * x == b * x - k * d * x;
    assert k * (c + d * x) == k * c + k * (d * x);
    assert k * d * x == k * (d * x);
  }

  lemma NoTap(k: real)
    ensures Tap(k, 0.0) == 0.0
  {
  }

  lemma {:induction false} GrownBefore(p: seq<real>, q: seq<real>, k: real, x: int -> real, m: int, n: nat)
    requires Grown(p, q, k) && n <= |p|
    ensures Before(q, x, m, n) == Before(p, x, m, n) - Tap(k, Mirrored(p, x, m, n))
  {
    hide Tap;
    NoTap(k);
    if n > 0 {
      GrownBefore(p, q, k, x, m, n - 1);
      assert q[n - 1] == p[n - 1] - Tap(k, p[|p| - n]);
      Regroup(Before(p, x, m, n - 1), p[n - 1], k, Mirrored(p, x, m, n - 1), p[|p| - n], x(m - n));
    }
  }

  lemma {:induction false} GrownSpan(p: seq<real>, q: seq<real>, k: real, x: int -> real, m: int, n: nat)
    requires Grown(p, q, k) && n <= |p|
    ensures Span(q, x, m - |p|, 0, n) == Span(p, x, m - |p|, 0, n) - Tap(k, Reversed(p, x, m, n))
  {
    hide Tap;
    NoTap(k);
    if n > 0 {
      GrownSpan(p, q, k, x, m, n - 1);
      assert q[n - 1] == p[n - 1] - Tap(k, p[|p| - n]);
      Regroup(Span(p, x, m - |p|, 0, n - 1), p[n - 1], k, Reversed(p, x, m, n - 1), p[|p| - n], x(m - |p| + n - 1));
    }
  }

  /** p[|p|-1]*x(m-|p|) + ... + p[|p|-n]*x(m-|p|+n-1) */
  function Reversed(p: seq<real>, x: int -> real, m: int, n: nat): real
    requires n <= |p|
  {
    if n == 0 then 0.0 else Reversed(p, x, m, n - 1) + Tap(p[|p| - n], x(m - |p| + n - 1))
  }

  /** Before from tap lo on. */
  function Behind(p: seq<real>, x: int -> real, m: int, lo: nat): real
    requires lo <= |p|
    decreases |p| - lo
  {
    if lo == |p| then 0.0 else Tap(p[lo], x(m - 1 - lo)) + Behind(p, x, m, lo + 1)
  }

  lemma {:induction false} BehindIsBefore(p: seq<real>, x: int -> real, m: int, lo: nat)
    requires lo <= |p|
    ensures Before(p, x, m, lo) + Behind(p, x, m, lo) == Before(p, x, m, |p|)
    decreases |p| - lo
  {
    hide Tap;
    if lo < |p| {
      BehindIsBefore(p, x, m, lo + 1);
    }
  }

  lemma {:induction false} ReversedIsBehind(p: seq<real>, x: int -> real, m: int, n: nat)
    requires n <= |p|
    ensures Reversed(p, x, m, n) == Behind(p, x, m, |p| - n)
  {
    hide Tap;
    if n > 0 {
      ReversedIsBehind(p, x, m, n - 1);
    }
  }

  lemma Distribute(k: real, a: real, b: real)
    ensures Tap(k, a + b) == Tap(k, a) + Tap(k, b)
  {
  }

  /** The direct form of the predictor is the lattice. */
  lemma {:induction false} LatticeIsDirect(refl: seq<real>, x: int -> real, n: nat, m: int)
    requires n <= |refl|
    ensures Forward(refl, x, n, m) == x(m) + Before(Predictor(refl, n), x, m, n)
    ensures Backward(refl, x, n, m) == x(m - n) + Span(Predictor(refl, n), x, m - n + 1, 0, n)
    decreases n
  {
    hide Predictor, Tap, Before, Span, Mirrored, Reversed, Behind, Grown;
    if n == 0 {
      NoPredictor(refl, x, m);
    } else {
      PredictorGrows(refl, n - 1);
      LatticeIsDirect(refl, x, n - 1, m);
      LatticeIsDirect(refl, x, n - 1, m - 1);
      assert m - 1 - (n - 1) == m - n && m - 1 - (n - 1) + 1 == m - n + 1;
      StageForward(Predictor(refl, n - 1), Predictor(refl, n), refl[n - 1], x, n, m);
      StageBackward(Predictor(refl, n - 1), Predictor(refl, n), refl[n - 1], x, n, m);
    }
  }

  lemma StageForward(p: seq<real>, q: seq<real>, k: real, x: int -> real, n: nat, m: int)
    requires Grown(p, q, k) && n == |q|
    ensures (x(m) + Before(p, x, m, n - 1)) - Tap(k, x(m - n) + Span(p, x, m - n + 1, 0, n - 1))
            == x(m) + Before(q, x, m, n)
  {
    hide Tap, Span, Mirrored;
    GrownBefore(p, q, k, x, m, n - 1);
    MirroredIsSpan(p, x, m, n - 1);
    assert m - |p| == m - n + 1;
    Distribute(k, x(m - n), Span(p, x, m - n + 1, 0, n - 1));
    Negated(k, x(m - n));
  }

  lemma StageBackward(p: seq<real>, q: seq<real>, k: real, x: int -> real, n: nat, m: int)
    requires Grown(p, q, k) && n == |q|
    ensures (x(m - n) + Span(p, x, m - n + 1, 0, n - 1)) - Tap(k, x(m) + Before(p, x, m, n - 1))
            == x(m - n) + Span(q, x, m - n + 1, 0, n)
  {
    hide Tap, Before, Reversed, Behind;
    GrownSpan(p, q, k, x, m, n - 1);
    ReversedIsBehind(p, x, m, n - 1);
    AllBehind(p, x, m);
    assert m - |p| == m - n + 1 && m - n + 1 + n - 1 == m;
    Distribute(k, x(m), Before(p, x, m, n - 1));
    Negated(k, x(m));
  }

  lemma AllBehind(p: seq<real>, x: int -> real, m: int)
    ensures Behind(p, x, m, 0) == Before(p, x, m, |p|)
  {
    hide Tap;
    BehindIsBefore(p, x, m, 0);
  }

  lemma Negated(k: real, x: real)
    ensures Tap(-k, x) == -Tap(k, x)
  {
  }

  lemma NoPredictor(refl: seq<real>, x: int -> real, m: int)
    ensures Before(Predictor(refl, 0), x, m, 0) == 0.0 && Span(Predictor(refl, 0), x, m + 1, 0, 0) == 0.0
  {
  }

  lemma PredictorGrows(refl: seq<real>, n: nat)
    requires n < |refl|
    ensures Grown(Predictor(refl, n), Predictor(refl, n + 1), refl[n])
  {
    hide Predictor, Tap, MulAdd;
    PredictorStep(refl, n);
    var (p, q) := (Predictor(refl, n), Predictor(refl, n + 1));
    forall j: nat | j < |p| ensures q[j] == p[j] - Tap(refl[n], p[|p| - 1 - j]) {
      Subtracted(p[j], refl[n], p[n - 1 - j]);
    }
  }

  lemma Subtracted(a: real, k: real, b: real)
    ensures MulAdd(a, 0.0 - k, b) == a - Tap(k, b)
  {
  }

  /** The samples of a region in filtering order, zero outside. */
  function Signal(z: seq<real>, r: Region): int -> real
    requires 0 <= r.lo && r.hi <= |z|
  {
    m => if 0 <= m < r.hi - r.lo && 0 <= r.lo && r.hi <= |z| then z[r.At(m)] else 0.0
  }

  lemma {:induction false} PastIsBefore(z: seq<real>, r: Region, m: nat, n: nat)
    requires 0 <= r.lo && m < r.hi - r.lo && r.hi <= |z| && n <= |r.lpc|
    ensures Before(r.lpc, Signal(z, r), m, n) == Past(z, r, m, Min(m, n))
  {
    if n > 0 {
      PastIsBefore(z, r, m, n - 1);
    }
  }

  /** Filtering a region is running the lattice of its reflection coefficients
      along it. */
  lemma FilterIsLattice(y: seq<real>, z: seq<real>, r: Region, refl: seq<real>, m: nat)
    requires Filtered(y, z, r) && r.lpc == Predictor(refl, |refl|) && m < r.hi - r.lo
    ensures y[r.At(m)] == Forward(refl, Signal(z, r), |refl|, m)
  {
    hide Past, Predictor, Before, Forward;
    LatticeIsDirect(refl, Signal(z, r), |refl|, m);
    PastIsBefore(z, r, m, |r.lpc|);
    assert FilteredAt(y, z, r, m);
  }

  // ----- the regions

  /** The bands the first f filters of a window claim. */
  function Claimed(lengths: seq<nat>, f: nat): nat
    requires f <= |lengths|
  {
    if f == 0 then 0 else Claimed(lengths, f - 1) + lengths[f - 1]
  }

  /** The band filter f starts below: each claims its length from what the ones
      before it left, down to band 0. */
  function Top(t: Tns, fr: Frame, w: nat, f: nat): nat
    requires w < |t.length| && f <= |t.length[w]|
  {
    Max(0, fr.numSwb - Claimed(t.length[w], f))
  }

  /** The region of filter f of window w, cut off at the highest band a filter
      may touch. */
  function RegionOf(t: Tns, fr: Frame, size: nat, w: nat, f: nat): Region
    requires Fits(t, fr, size) && w < fr.numWindows && f < t.nFilt[w]
  {
    var (bottom, top) := (Min(Top(t, fr, w, f + 1), fr.cap), Min(Top(t, fr, w, f), fr.cap));
    Region(w * 128 + fr.offsets[bottom], w * 128 + fr.offsets[top], t.down[w][f],
           Predictor(t.refl[w][f], t.order[w][f]))
  }

  /** A filter works when it has an order and bins. */
  predicate Works(t: Tns, fr: Frame, size: nat, w: nat, f: nat)
    requires Fits(t, fr, size) && w < fr.numWindows && f < t.nFilt[w]
  {
    t.order[w][f] > 0 && RegionOf(t, fr, size, w, f).lo < RegionOf(t, fr, size, w, f).hi
  }

  /** r is the region of a working filter from filter f of window w on. */
  ghost predicate Among(t: Tns, fr: Frame, size: nat, w: nat, f: nat, r: Region)
    requires Fits(t, fr, size)
  {
    exists v: nat, g: nat :: v < fr.numWindows && g < t.nFilt[v] && (v > w || (v == w && g >= f))
                             && Works(t, fr, size, v, g) && r == RegionOf(t, fr, size, v, g)
  }

  lemma NextTop(t: Tns, fr: Frame, w: nat, f: nat)
    requires w < |t.length| && f < |t.length[w]|
    ensures Top(t, fr, w, f + 1) == Max(0, Top(t, fr, w, f) - t.length[w][f])
    ensures Top(t, fr, w, 0) == fr.numSwb && Top(t, fr, w, f) <= fr.numSwb
  {
  }

  lemma AmongNextWindow(t: Tns, fr: Frame, size: nat, w: nat, r: Region)
    requires Fits(t, fr, size) && w < fr.numWindows
    ensures Among(t, fr, size, w, t.nFilt[w], r) <==> Among(t, fr, size, w + 1, 0, r)
  {
    hide Works, RegionOf, Fits;
  }

  lemma AmongNextFilter(t: Tns, fr: Frame, size: nat, w: nat, f: nat, r: Region)
    requires Fits(t, fr, size) && w < fr.numWindows && f < t.nFilt[w]
    ensures Among(t, fr, size, w, f, r)
            <==> (Works(t, fr, size, w, f) && r == RegionOf(t, fr, size, w, f)) || Among(t, fr, size, w, f + 1, r)
  {
    hide Works, RegionOf, Fits;
  }

  lemma AmongNone(t: Tns, fr: Frame, size: nat, w: nat, r: Region)
    requires Fits(t, fr, size) && w >= fr.numWindows
    ensures !Among(t, fr, size, w, 0, r)
  {
    hide Works, RegionOf, Fits;
  }

  lemma FilterRegion(t: Tns, fr: Frame, size: nat, w: nat, f: nat, r: Region)
    requires Fits(t, fr, size) && w < fr.numWindows && f < t.nFilt[w]
    requires Top(t, fr, w, f + 1) <= Top(t, fr, w, f) <= fr.numSwb
    ensures r in RegionsAt(t, fr, w, f, Top(t, fr, w, f + 1), Top(t, fr, w, f))
            <==> Works(t, fr, size, w, f) && r == RegionOf(t, fr, size, w, f)
  {
    hide Frame.Valid, Predictor, Top;
  }

  lemma FromFilter(t: Tns, fr: Frame, size: nat, w: nat, f: nat)
    requires Fits(t, fr, size) && w < fr.numWindows && f < t.nFilt[w]
    ensures Top(t, fr, w, f + 1) <= Top(t, fr, w, f) <= fr.numSwb
    ensures RegionsFrom(t, fr, size, w, f, Top(t, fr, w, f))
            == RegionsAt(t, fr, w, f, Top(t, fr, w, f + 1), Top(t, fr, w, f))
               + RegionsFrom(t, fr, size, w, f + 1, Top(t, fr, w, f + 1))
  {
    NextTop(t, fr, w, f);
    hide Top, RegionsAt, Frame.Valid;
  }

  lemma FromWindow(t: Tns, fr: Frame, size: nat, w: nat, top: nat)
    requires Fits(t, fr, size) && top <= fr.numSwb
    ensures w >= fr.numWindows ==> RegionsFrom(t, fr, size, w, 0, top) == []
    ensures w < fr.numWindows ==>
              RegionsFrom(t, fr, size, w, t.nFilt[w], top) == RegionsFrom(t, fr, size, w + 1, 0, fr.numSwb)
  {
    hide RegionsAt, Frame.Valid;
  }

  function TopFrom(t: Tns, fr: Frame, size: nat, w: nat, f: nat): nat
    requires Fits(t, fr, size) && (w < fr.numWindows ==> f <= t.nFilt[w])
  {
    if w < fr.numWindows then Top(t, fr, w, f) else fr.numSwb
  }

  lemma TopsFit(t: Tns, fr: Frame, size: nat, w: nat, f: nat)
    requires Fits(t, fr, size) && (w < fr.numWindows ==> f <= t.nFilt[w])
    ensures TopFrom(t, fr, size, w, f) <= fr.numSwb && (f == 0 ==> TopFrom(t, fr, size, w, f) == fr.numSwb)
  {
  }

  lemma {:induction false} RegionsAmong(t: Tns, fr: Frame, size: nat, w: nat, f: nat, r: Region)
    requires Fits(t, fr, size) && (w < fr.numWindows ==> f <= t.nFilt[w]) && (w >= fr.numWindows ==> f == 0)
    ensures TopFrom(t, fr, size, w, f) <= fr.numSwb
    ensures r in RegionsFrom(t, fr, size, w, f, TopFrom(t, fr, size, w, f)) <==> Among(t, fr, size, w, f, r)
    decreases fr.numWindows - w, if w < fr.numWindows then t.nFilt[w] - f else 0
  {
    hide Top, RegionsFrom, RegionsAt, Among, Works, RegionOf;
    TopsFit(t, fr, size, w, f);
    if w >= fr.numWindows {
      FromWindow(t, fr, size, w, fr.numSwb);
      AmongNone(t, fr, size, w, r);
    } else if f == t.nFilt[w] {
      FromWindow(t, fr, size, w, TopFrom(t, fr, size, w, f));
      AmongNextWindow(t, fr, size, w, r);
      TopsFit(t, fr, size, w + 1, 0);
      RegionsAmong(t, fr, size, w + 1, 0, r);
    } else {
      FromFilter(t, fr, size, w, f);
      FilterRegion(t, fr, size, w, f, r);
      AmongNextFilter(t, fr, size, w, f, r);
      RegionsAmong(t, fr, size, w, f + 1, r);
    }
  }

  /** The filters of a channel work on these regions and no others. */
  lemma RegionsAre(t: Tns, fr: Frame, size: nat, r: Region)
    requires Fits(t, fr, size)
    ensures r in AllRegions(t, fr, size)
            <==> exists w: nat, f: nat :: w < fr.numWindows && f < t.nFilt[w] && Works(t, fr, size, w, f)
                                          && r == RegionOf(t, fr, size, w, f)
  {
    TopsFit(t, fr, size, 0, 0);
    RegionsAmong(t, fr, size, 0, 0, r);
    hide Works, RegionOf, RegionsFrom, Fits;
  }
}
