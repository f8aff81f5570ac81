/** Temporal noise shaping in exact arithmetic: the encoder's prediction from the
    unfiltered spectrum and the decoder's recursive filter undo each other, and
    the two reflection-to-predictor recursions agree up to the fixed-point
    scale. */
module TnsFilter {
  const MAX_ORDER := 20
  const SCALE: real := 67108864.0  // 2^26

  // ----- predictor coefficients from reflection coefficients

  function MulAdd(a: real, r: real, b: real): real {
    a + r * b
  }

  /** The direct-form predictor of the first n reflection coefficients. */
  function Predictor(refl: seq<real>, n: nat): (lpc: seq<real>)
    requires n <= |refl|
    ensures |lpc| == n
  {
    if n == 0 then []
    else
      var p := Predictor(refl, n - 1);
      var r := 0.0 - refl[n - 1];
      seq(n - 1, j requires 0 <= j < n - 1 && |p| == n - 1 => MulAdd(p[j], r, p[n - 2 - j])) + [r]
  }

  lemma PredictorStep(refl: seq<real>, n: nat)
    requires n < |refl|
    ensures var p, q, r := Predictor(refl, n), Predictor(refl, n + 1), 0.0 - refl[n];
            q[n] == r && forall j: nat {:trigger q[j]} {:trigger p[j]} :: j < n ==>
                q[j] == MulAdd(p[j], r, p[n - 1 - j])
  {
    hide MulAdd;
  }

  method RefToLpc(refl: seq<real>, order: nat, lpc: array<real>)
    requires order <= |refl| && order <= lpc.Length
    modifies lpc
    ensures lpc[..order] == Predictor(refl, order)
  {
    hide MulAdd, Predictor;
    var i := 0;
    while i < order
      invariant 0 <= i <= order
      invariant forall k: nat :: k < i ==> lpc[k] == Predictor(refl, i)[k]
    {
      var r := 0.0 - refl[i];
      ghost var p := Predictor(refl, i);
      PredictorStep(refl, i);
      lpc[i] := r;
      var j := 0;
      while j < (i + 1) / 2
        invariant 0 <= j <= (i + 1) / 2 && lpc[i] == r
        invariant forall k: nat :: k < i && (k < j || i - 1 - k < j) ==> lpc[k] == MulAdd(p[k], r, p[i - 1 - k])
        invariant forall k: nat :: k < i && !(k < j || i - 1 - k < j) ==> lpc[k] == p[k]
      {
        var f := lpc[j];
        var b := lpc[i - 1 - j];
        lpc[j] := MulAdd(f, r, b);
        lpc[i - 1 - j] := MulAdd(b, r, f);
        j := j + 1;
      }
      forall k: nat | k < i + 1 ensures lpc[k] == Predictor(refl, i + 1)[k] {
        if k < i {
          assert k < j || i - 1 - k < j;
        }
      }
      i := i + 1;
    }
  }

  /** The fixed-point product with 26 fractional bits, without its rounding. */
  function Mul26(x: real, y: real): real {
    x * y / SCALE
  }

  function Scaled(x: real): real {
    SCALE * x
  }

  lemma Mul26Scaled(a: real, b: real)
    ensures Mul26(Scaled(a), Scaled(b)) == Scaled(a * b)
    ensures Mul26(a, Scaled(b)) == a * b
  {
    Regroup(SCALE, a, SCALE, b);
    Cancel(SCALE * (a * b));
    Cancel(a * b);
    assert a * (SCALE * b) == SCALE * (a * b);
  }

  lemma StepScaled(p: real, r: real, q: real)
    ensures Scaled(p) + Mul26(Scaled(r), Scaled(q)) == Scaled(MulAdd(p, r, q))
  {
    hide Mul26;
    Mul26Scaled(r, q);
    Distribute(p, r * q);
  }

  lemma Distribute(p: real, q: real)
    ensures Scaled(p) + Scaled(q) == Scaled(p + q)
  {
  }

  lemma ReflectionScaled(x: real)
    ensures (0.0 - 32.0 * Scaled(x)) / 32.0 == Scaled(0.0 - x)
  {
  }

  lemma Regroup(s: real, a: real, t: real, b: real)
    ensures (s * a) * (t * b) == t * (s * (a * b))
  {
  }

  lemma Cancel(x: real)
    ensures (SCALE * x) / SCALE == x
  {
  }

  /** The decoder's coefficients have 31 fractional bits, its predictor 26. */
  ghost predicate Q31(autoc: seq<real>, refl: seq<real>) {
    |autoc| == |refl| && forall i: nat :: i < |refl| ==> autoc[i] == 32.0 * Scaled(refl[i])
  }

  method ComputeLpcFixed(autoc: seq<real>, order: nat, lpc: array<real>, ghost refl: seq<real>)
    requires order <= |autoc| && order <= lpc.Length
    requires Q31(autoc, refl)
    modifies lpc
    ensures forall k: nat :: k < order ==> lpc[k] == Scaled(Predictor(refl, order)[k])
  {
    hide MulAdd, Predictor, Mul26, Scaled;
    var i := 0;
    while i < order
      invariant 0 <= i <= order
      invariant forall k: nat :: k < i ==> lpc[k] == Scaled(Predictor(refl, i)[k])
    {
      var r := (0.0 - autoc[i]) / 32.0;
      ghost var p := Predictor(refl, i);
      ghost var r0 := 0.0 - refl[i];
      ReflectionScaled(refl[i]);
      PredictorStep(refl, i);
      lpc[i] := r;
      var j := 0;
      while j < (i + 1) / 2
        invariant 0 <= j <= (i + 1) / 2 && lpc[i] == r
        invariant forall k: nat :: k < i && (k < j || i - 1 - k < j) ==>
                  lpc[k] == Scaled(MulAdd(p[k], r0, p[i - 1 - k]))
        invariant forall k: nat :: k < i && !(k < j || i - 1 - k < j) ==> lpc[k] == Scaled(p[k])
      {
        var f := lpc[j];
        var b := lpc[i - 1 - j];
        StepScaled(p[j], r0, p[i - 1 - j]);
        StepScaled(p[i - 1 - j], r0, p[j]);
        lpc[j] := f + Mul26(r, b);
        lpc[i - 1 - j] := b + Mul26(r, f);
        j := j + 1;
      }
      forall k: nat | k < i + 1 ensures lpc[k] == Scaled(Predictor(refl, i + 1)[k]) {
        if k < i {
          assert k < j || i - 1 - k < j;
        }
      }
      i := i + 1;
    }
  }

  // ----- one filter region

  /** A run [lo, hi) of the spectrum filtered upwards, or downwards from hi-1. */
  datatype Region = Region(lo: int, hi: int, down: bool, lpc: seq<real>)
  {
    predicate Has(p: int) {
      lo <= p < hi
    }

    /** The m-th position in filtering order. */
    function At(m: int): int {
      if down then hi - 1 - m else lo + m
    }
  }

  function Tap(a: real, b: real): real {
    a * b
  }

  /** lpc[0]*z[m-1] + ... + lpc[n-1]*z[m-n], along the region. */
  function Past(z: seq<real>, r: Region, m: nat, n: nat): real
    requires n <= m && n <= |r.lpc| && 0 <= r.lo && m < r.hi - r.lo && r.hi <= |z|
  {
    if n == 0 then 0.0 else Past(z, r, m, n - 1) + Tap(r.lpc[n - 1], z[r.At(m - n)])
  }

  function Min(a: int, b: int): int {
    if a <= b then a else b
  }

  function Max(a: int, b: int): int {
    if a >= b then a else b
  }

  /** Position m of y is z's sample plus its prediction. */
  ghost predicate FilteredAt(y: seq<real>, z: seq<real>, r: Region, m: nat)
    requires 0 <= r.lo && m < r.hi - r.lo && r.hi <= |z| == |y|
  {
    y[r.At(m)] == z[r.At(m)] + Past(z, r, m, Min(m, |r.lpc|))
  }

  ghost predicate Filtered(y: seq<real>, z: seq<real>, r: Region) {
    |y| == |z| && 0 <= r.lo && r.hi <= |z| && forall m: nat :: m < r.hi - r.lo ==> FilteredAt(y, z, r, m)
  }

  /** Sample by sample, y determines z. */
  lemma {:induction false} FilterInjective(y: seq<real>, z: seq<real>, z': seq<real>, r: Region, m: nat)
    requires Filtered(y, z, r) && Filtered(y, z', r) && m < r.hi - r.lo
    ensures z[r.At(m)] == z'[r.At(m)]
    decreases m
  {
    PastInjective(y, z, z', r, m, Min(m, |r.lpc|));
    assert FilteredAt(y, z, r, m) && FilteredAt(y, z', r, m);
  }

  lemma {:induction false} PastInjective(y: seq<real>, z: seq<real>, z': seq<real>, r: Region, m: nat, n: nat)
    requires Filtered(y, z, r) && Filtered(y, z', r) && n <= m && n <= |r.lpc| && m < r.hi - r.lo
    ensures Past(z, r, m, n) == Past(z', r, m, n)
    decreases m, n
  {
    if n > 0 {
      PastInjective(y, z, z', r, m, n - 1);
      FilterInjective(y, z, z', r, m - n);
    }
  }

  // ----- all regions of a spectrum

  ghost predicate Outside(rs: seq<Region>, p: int) {
    forall k: nat :: k < |rs| ==> !rs[k].Has(p)
  }

  /** y is the analysis of z, equivalently z the synthesis of y, over the
      regions rs; nothing else changes. */
  ghost predicate Related(y: seq<real>, z: seq<real>, rs: seq<Region>) {
    && |y| == |z|
    && (forall k: nat :: k < |rs| ==> Filtered(y, z, rs[k]))
    && (forall p: nat :: p < |z| && Outside(rs, p) ==> y[p] == z[p])
  }

  /** The decoder's output is determined: it recovers whatever the encoder
      filtered. */
  lemma SynthesisUndoesAnalysis(x: seq<real>, y: seq<real>, z: seq<real>, rs: seq<Region>)
    requires Related(y, x, rs) && Related(y, z, rs)
    ensures z == x
  {
    forall p: nat | p < |x| ensures x[p] == z[p] {
      if !Outside(rs, p) {
        var k: nat :| k < |rs| && rs[k].Has(p);
        var r := rs[k];
        var m := if r.down then r.hi - 1 - p else p - r.lo;
        assert r.At(m) == p;
        assert Filtered(y, x, r) && Filtered(y, z, r);
        FilterInjective(y, x, z, r, m);
      }
    }
  }

  /** And the encoder's is: it recovers whatever the decoder filtered. */
  lemma AnalysisUndoesSynthesis(x: seq<real>, y: seq<real>, y': seq<real>, rs: seq<Region>)
    requires Related(y, x, rs) && Related(y', x, rs)
    ensures y == y'
  {
    forall p: nat | p < |x| ensures y[p] == y'[p] {
      if !Outside(rs, p) {
        var k: nat :| k < |rs| && rs[k].Has(p);
        var r := rs[k];
        var m := if r.down then r.hi - 1 - p else p - r.lo;
        assert r.At(m) == p;
        assert Filtered(y, x, r) && Filtered(y', x, r);
        assert FilteredAt(y, x, r, m) && FilteredAt(y', x, r, m);
      }
    }
  }

  // ----- the regions of a channel

  /** Filter data per window; filter f of window w covers length[w][f] bands
      below the previous one. */
  datatype Tns = Tns(nFilt: seq<nat>, length: seq<seq<nat>>, order: seq<seq<nat>>, down: seq<seq<bool>>,
                     refl: seq<seq<seq<real>>>)

  /** The frame's geometry; cap is the highest band a filter may touch. */
  datatype Frame = Frame(numWindows: nat, numSwb: nat, offsets: seq<nat>, cap: nat)
  {
    ghost predicate Valid() {
      && |offsets| == numSwb + 1
      && (forall i: nat, j: nat :: i <= j <= numSwb ==> offsets[i] <= offsets[j])
      && (numWindows > 1 ==> offsets[numSwb] <= 128)
    }

    function Edge(band: int): nat
      requires 0 <= band <= numSwb && |offsets| == numSwb + 1
    {
      offsets[Min(band, cap)]
    }
  }

  ghost predicate Fits(t: Tns, fr: Frame, size: nat) {
    && fr.Valid()
    && |t.nFilt| >= fr.numWindows && |t.length| >= fr.numWindows && |t.order| >= fr.numWindows
    && |t.down| >= fr.numWindows && |t.refl| >= fr.numWindows
    && forall w: nat :: w < fr.numWindows ==>
         && w * 128 + fr.offsets[fr.numSwb] <= size
         && t.nFilt[w] <= |t.length[w]| && t.nFilt[w] <= |t.order[w]|
         && t.nFilt[w] <= |t.down[w]| && t.nFilt[w] <= |t.refl[w]|
         && forall f: nat :: f < t.nFilt[w] ==> t.order[w][f] <= |t.refl[w][f]| && t.order[w][f] <= MAX_ORDER
  }

  /** The filter of one region, none when it has no order or no bins. */
  function RegionsAt(t: Tns, fr: Frame, w: nat, f: nat, bottom: nat, top: nat): (rs: seq<Region>)
    requires bottom <= top <= fr.numSwb && |fr.offsets| == fr.numSwb + 1
    requires w < |t.order| && w < |t.down| && w < |t.refl| && f < |t.order[w]| && f < |t.down[w]| && f < |t.refl[w]|
    requires t.order[w][f] <= |t.refl[w][f]|
  {
    if t.order[w][f] == 0 || fr.Edge(top) <= fr.Edge(bottom) then []
    else
      [Region(w * 128 + fr.Edge(bottom), w * 128 + fr.Edge(top), t.down[w][f], Predictor(t.refl[w][f], t.order[w][f]))]
  }

  /** The regions from filter f of window w on, the next one ending at top. */
  ghost function RegionsFrom(t: Tns, fr: Frame, size: nat, w: nat, f: nat, top: nat): seq<Region>
    requires Fits(t, fr, size) && top <= fr.numSwb
    decreases fr.numWindows - w, if w < fr.numWindows then t.nFilt[w] - f else 0
  {
    if w >= fr.numWindows then []
    else if f >= t.nFilt[w] then RegionsFrom(t, fr, size, w + 1, 0, fr.numSwb)
    else
      var bottom := Max(0, top - t.length[w][f]);
      RegionsAt(t, fr, w, f, bottom, top) + RegionsFrom(t, fr, size, w, f + 1, bottom)
  }

  ghost function AllRegions(t: Tns, fr: Frame, size: nat): seq<Region>
    requires Fits(t, fr, size)
  {
    RegionsFrom(t, fr, size, 0, 0, fr.numSwb)
  }

  /** The regions walked so far keep clear of window w below the bound. */
  ghost predicate Clear(rs: seq<Region>, w: nat, bound: nat) {
    forall k: nat :: k < |rs| ==> 0 <= rs[k].lo && (rs[k].hi <= w * 128 || w * 128 + bound <= rs[k].lo)
  }

  ghost predicate Below(rs: seq<Region>, limit: nat) {
    forall k: nat :: k < |rs| ==> rs[k].hi <= limit
  }

  lemma ClearNextWindow(rs: seq<Region>, w: nat, bound: nat, next: nat)
    requires Clear(rs, w, bound) && Below(rs, w * 128 + 128)
    ensures Clear(rs, w + 1, next)
  {
  }

  // ----- one region at a time

  ghost predicate SameOn(a: seq<real>, b: seq<real>, r: Region) {
    |a| == |b| && forall p: nat :: p < |a| && r.Has(p) ==> a[p] == b[p]
  }

  ghost predicate SameOff(a: seq<real>, b: seq<real>, r: Region) {
    |a| == |b| && forall p: nat :: p < |a| && !r.Has(p) ==> a[p] == b[p]
  }

  ghost predicate Apart(r: Region, s: Region) {
    r.hi <= s.lo || s.hi <= r.lo
  }

  lemma {:induction false} PastLocal(z: seq<real>, z': seq<real>, r: Region, m: nat, n: nat)
    requires n <= m && n <= |r.lpc| && 0 <= r.lo && m < r.hi - r.lo && r.hi <= |z| && SameOn(z, z', r)
    ensures Past(z, r, m, n) == Past(z', r, m, n)
  {
    if n > 0 {
      PastLocal(z, z', r, m, n - 1);
      assert r.Has(r.At(m - n));
    }
  }

  lemma FilteredLocal(y: seq<real>, z: seq<real>, y': seq<real>, z': seq<real>, r: Region)
    requires Filtered(y, z, r) && SameOn(y, y', r) && SameOn(z, z', r) && |y'| == |z'|
    ensures Filtered(y', z', r)
  {
    forall m: nat | m < r.hi - r.lo ensures FilteredAt(y', z', r, m) {
      assert FilteredAt(y, z, r, m);
      PastLocal(z, z', r, m, Min(m, |r.lpc|));
      assert r.Has(r.At(m));
    }
  }

  lemma ApartSame(a: seq<real>, b: seq<real>, r: Region, s: Region)
    requires SameOff(a, b, r) && Apart(r, s)
    ensures SameOn(a, b, s)
  {
  }

  /** Filtering one more region, apart from the others, on either side. */
  lemma RelatedStep(y: seq<real>, z: seq<real>, y': seq<real>, z': seq<real>, rs: seq<Region>, r: Region)
    requires Related(y, z, rs) && forall k: nat :: k < |rs| ==> Apart(r, rs[k])
    requires SameOff(y, y', r) && SameOff(z, z', r) && |y'| == |z'| && Filtered(y', z', r)
    ensures Related(y', z', rs + [r])
  {
    hide Filtered;
    var rs' := rs + [r];
    forall k: nat | k < |rs'| ensures Filtered(y', z', rs'[k]) {
      if k < |rs| {
        ApartSame(y, y', r, rs[k]);
        ApartSame(z, z', r, rs[k]);
        FilteredLocal(y, z, y', z', rs[k]);
      }
    }
    forall p: nat | p < |z'| && Outside(rs', p) ensures y'[p] == z'[p] {
      assert !rs'[|rs|].Has(p);
      forall k: nat | k < |rs| ensures !rs[k].Has(p) {
        assert rs'[k] == rs[k];
      }
    }
  }

  /** Where the region lies, nothing has been filtered yet. */
  lemma UntouchedRegion(y: seq<real>, z: seq<real>, rs: seq<Region>, r: Region)
    requires Related(y, z, rs) && forall k: nat :: k < |rs| ==> Apart(r, rs[k])
    ensures SameOn(y, z, r)
  {
    hide Filtered;
    forall p: nat | p < |y| && r.Has(p) ensures y[p] == z[p] {
      forall k: nat | k < |rs| ensures !rs[k].Has(p) {
        assert Apart(r, rs[k]);
      }
    }
  }

  lemma ClearApart(rs: seq<Region>, w: nat, bound: nat, r: Region)
    requires Clear(rs, w, bound) && w * 128 <= r.lo && r.hi <= w * 128 + bound
    ensures forall k: nat :: k < |rs| ==> Apart(r, rs[k])
  {
  }

  lemma PastStep(z: seq<real>, r: Region, m: nat, n: nat)
    requires n < m && n < |r.lpc| && 0 <= r.lo && m < r.hi - r.lo && r.hi <= |z|
    ensures Past(z, r, m, n + 1) == Past(z, r, m, n) + Tap(r.lpc[n], z[r.At(m - n - 1)])
  {
  }

  lemma AtBack(r: Region, m: int, i: int)
    ensures var inc := if r.down then -1 else 1; r.At(m) - i * inc == r.At(m - i)
  {
  }

  /** The encoder's filter on one region: prediction from the history. */
  method AnalyseRegion(coeffs: array<real>, hist: seq<real>, first: int, inc: int, size: nat, order: nat,
                       lpc: array<real>, ghost r: Region)
    requires |hist| == coeffs.Length && lpc != coeffs
    requires 0 <= r.lo && r.hi <= coeffs.Length && size == r.hi - r.lo && inc == (if r.down then -1 else 1)
    requires size > 0 && first == r.At(0) && order == |r.lpc| <= lpc.Length && lpc[..order] == r.lpc
    requires SameOn(coeffs[..], hist, r)
    modifies coeffs
    ensures SameOff(old(coeffs[..]), coeffs[..], r) && Filtered(coeffs[..], hist, r)
  {
    hide Past, Tap;
    var start := first;
    var m := 0;
    while m < size
      invariant 0 <= m <= size && start == r.At(m) && lpc[..order] == r.lpc
      invariant SameOff(old(coeffs[..]), coeffs[..], r)
      invariant forall j: nat :: j < m ==> FilteredAt(coeffs[..], hist, r, j)
      invariant forall j: nat :: m <= j < size ==> coeffs[r.At(j)] == hist[r.At(j)]
    {
      ghost var before := coeffs[..];
      var i := 1;
      PastZero(hist, r, m);
      while i <= Min(m, order)
        invariant 1 <= i <= Min(m, order) + 1 && lpc[..order] == r.lpc
        invariant coeffs[..] == before[start := hist[start] + Past(hist, r, m, i - 1)]
      {
        AtBack(r, m, i);
        PastStep(hist, r, m, i - 1);
        assert lpc[i - 1] == r.lpc[i - 1];
        var back := start - i * inc;
        assert back == r.At(m - i);
        var t := Tap(lpc[i - 1], hist[back]);
        coeffs[start] := coeffs[start] + t;
        i := i + 1;
      }
      assert FilteredAt(coeffs[..], hist, r, m);
      EarlierKept(before, coeffs[..], hist, r, m);
      m, start := m + 1, start + inc;
    }
  }

  lemma PastZero(z: seq<real>, r: Region, m: nat)
    requires 0 <= r.lo && m < r.hi - r.lo && r.hi <= |z|
    ensures Past(z, r, m, 0) == 0.0
  {
  }

  lemma EarlierKept(before: seq<real>, after: seq<real>, hist: seq<real>, r: Region, m: nat)
    requires 0 <= r.lo && m < r.hi - r.lo && r.hi <= |before| == |hist|
    requires |after| == |before| && forall p: nat :: p < |after| && p != r.At(m) ==> after[p] == before[p]
    requires forall j: nat :: j < m ==> FilteredAt(before, hist, r, j)
    ensures forall j: nat :: j < m ==> FilteredAt(after, hist, r, j)
  {
    hide Past;
    forall j: nat | j < m ensures FilteredAt(after, hist, r, j) {
      assert FilteredAt(before, hist, r, j);
      assert r.At(j) != r.At(m);
    }
  }

  lemma TapScaled(x: real, a: real)
    ensures Mul26(x, Scaled(a)) == Tap(a, x)
  {
    Mul26Scaled(x, a);
  }

  /** The decoder's filter on one region: in place and recursive. */
  method SynthesiseRegion(coef: array<real>, first: int, inc: int, size: nat, order: nat,
                          lpc: array<real>, ghost r: Region)
    requires lpc != coef
    requires 0 <= r.lo && r.hi <= coef.Length && size == r.hi - r.lo && inc == (if r.down then -1 else 1)
    requires size > 0 && first == r.At(0) && order == |r.lpc| <= lpc.Length
    requires forall k: nat :: k < order ==> lpc[k] == Scaled(r.lpc[k])
    modifies coef
    ensures SameOff(old(coef[..]), coef[..], r) && Filtered(old(coef[..]), coef[..], r)
  {
    hide Past, Scaled, Mul26, Tap;
    ghost var y := coef[..];
    var start := first;
    var m := 0;
    while m < size
      invariant 0 <= m <= size && start == r.At(m)
      invariant forall k: nat :: k < order ==> lpc[k] == Scaled(r.lpc[k])
      invariant SameOff(y, coef[..], r)
      invariant forall j: nat :: j < m ==> FilteredAt(y, coef[..], r, j)
      invariant forall j: nat :: m <= j < size ==> coef[r.At(j)] == y[r.At(j)]
    {
      ghost var before := coef[..];
      var lim := Min(m, order);
      var i := 1;
      PastZero(before, r, m);
      while i <= lim
        invariant 1 <= i <= lim + 1
        invariant forall k: nat :: k < order ==> lpc[k] == Scaled(r.lpc[k])
        invariant coef[..] == before[start := y[start] - Past(before, r, m, i - 1)]
      {
        AtBack(r, m, i);
        PastStep(before, r, m, i - 1);
        var back := start - i * inc;
        assert back == r.At(m - i) != start;
        TapScaled(coef[back], r.lpc[i - 1]);
        coef[start] := coef[start] - Mul26(coef[back], lpc[i - 1]);
        i := i + 1;
      }
      SampleDone(y, before, coef[..], r, m);
      m, start := m + 1, start + inc;
    }
  }

  lemma {:induction false} PastBefore(z: seq<real>, z': seq<real>, r: Region, m: nat, n: nat, top: nat)
    requires n <= m <= top && n <= |r.lpc| && 0 <= r.lo && top < r.hi - r.lo && r.hi <= |z| == |z'|
    requires forall p: nat :: p < |z| && p != r.At(top) ==> z[p] == z'[p]
    ensures Past(z, r, m, n) == Past(z', r, m, n)
  {
    if n > 0 {
      PastBefore(z, z', r, m, n - 1, top);
      assert r.At(m - n) != r.At(top);
    }
  }

  lemma SampleDone(y: seq<real>, before: seq<real>, after: seq<real>, r: Region, m: nat)
    requires 0 <= r.lo && m < r.hi - r.lo && r.hi <= |y| == |before|
    requires after == before[r.At(m) := y[r.At(m)] - Past(before, r, m, Min(m, |r.lpc|))]
    requires forall j: nat :: j < m ==> FilteredAt(y, before, r, j)
    ensures forall j: nat :: j <= m ==> FilteredAt(y, after, r, j)
  {
    hide Past;
    forall j: nat | j <= m ensures FilteredAt(y, after, r, j) {
      PastBefore(before, after, r, j, Min(j, |r.lpc|), m);
      if j < m {
        assert FilteredAt(y, before, r, j);
        assert r.At(j) != r.At(m);
      }
    }
  }

  // ----- a whole channel

  /** The walk's bookkeeping before filter f of window w. */
  ghost predicate Walked(done: seq<Region>, t: Tns, fr: Frame, size: nat, w: nat, f: nat, top: nat)
    requires Fits(t, fr, size)
  {
    && top <= fr.numSwb
    && done + RegionsFrom(t, fr, size, w, f, top) == AllRegions(t, fr, size)
    && (w < fr.numWindows ==> Clear(done, w, fr.Edge(top)))
    && (w + 1 < fr.numWindows ==> Below(done, w * 128 + 128))
  }

  lemma WalkStart(t: Tns, fr: Frame, size: nat)
    requires Fits(t, fr, size)
    ensures Walked([], t, fr, size, 0, 0, fr.numSwb)
  {
    assert [] + RegionsFrom(t, fr, size, 0, 0, fr.numSwb) == AllRegions(t, fr, size);
  }

  lemma WalkNextWindow(done: seq<Region>, t: Tns, fr: Frame, size: nat, w: nat, f: nat, top: nat)
    requires Fits(t, fr, size) && Walked(done, t, fr, size, w, f, top) && w < fr.numWindows && f == t.nFilt[w]
    ensures Walked(done, t, fr, size, w + 1, 0, fr.numSwb)
  {
    if w + 1 < fr.numWindows {
      ClearNextWindow(done, w, fr.Edge(top), fr.Edge(fr.numSwb));
      forall k: nat | k < |done| ensures done[k].hi <= (w + 1) * 128 + 128 {
        assert done[k].hi <= w * 128 + 128;
      }
    }
  }

  lemma EdgeOrder(fr: Frame, a: nat, b: nat)
    requires fr.Valid() && a <= b <= fr.numSwb
    ensures fr.Edge(a) <= fr.Edge(b) <= fr.offsets[fr.numSwb]
  {
  }

  lemma WalkNextFilter(done: seq<Region>, t: Tns, fr: Frame, size: nat, w: nat, f: nat, top: nat)
    requires Fits(t, fr, size) && Walked(done, t, fr, size, w, f, top) && w < fr.numWindows && f < t.nFilt[w]
    ensures var bottom := Max(0, top - t.length[w][f]);
            var rs := RegionsAt(t, fr, w, f, bottom, top);
            && Walked(done + rs, t, fr, size, w, f + 1, bottom)
            && (|rs| == 1 ==> forall k: nat :: k < |done| ==> Apart(rs[0], done[k]))
            && (|rs| == 1 ==> 0 <= rs[0].lo && rs[0].hi <= size)
  {
    var bottom := Max(0, top - t.length[w][f]);
    var rs := RegionsAt(t, fr, w, f, bottom, top);
    EdgeOrder(fr, bottom, top);
    hide RegionsFrom;
    RegionsStep(t, fr, size, w, f, top);
    var rest := RegionsFrom(t, fr, size, w, f + 1, bottom);
    assert done + (rs + rest) == (done + rs) + rest;
    if |rs| == 1 {
      ClearApart(done, w, fr.Edge(top), rs[0]);
    }
    forall k: nat | k < |done + rs|
      ensures 0 <= (done + rs)[k].lo
      ensures (done + rs)[k].hi <= w * 128 || w * 128 + fr.Edge(bottom) <= (done + rs)[k].lo
      ensures w + 1 < fr.numWindows ==> (done + rs)[k].hi <= w * 128 + 128
    {
      if k < |done| {
        assert (done + rs)[k] == done[k];
      }
    }
  }

  lemma RegionsStep(t: Tns, fr: Frame, size: nat, w: nat, f: nat, top: nat)
    requires Fits(t, fr, size) && top <= fr.numSwb && w < fr.numWindows && f < t.nFilt[w]
    ensures var bottom := Max(0, top - t.length[w][f]);
            RegionsFrom(t, fr, size, w, f, top)
            == RegionsAt(t, fr, w, f, bottom, top) + RegionsFrom(t, fr, size, w, f + 1, bottom)
  {
  }

  lemma RegionsEnd(t: Tns, fr: Frame, size: nat, w: nat, top: nat)
    requires Fits(t, fr, size) && top <= fr.numSwb && w >= fr.numWindows
    ensures RegionsFrom(t, fr, size, w, 0, top) == []
  {
  }

  /** The encoder: predicts every sample of every region from the unfiltered
      spectrum. */
  method ApplyTns(coeffs: array<real>, t: Tns, fr: Frame)
    requires Fits(t, fr, coeffs.Length)
    modifies coeffs
    ensures Related(coeffs[..], old(coeffs[..]), AllRegions(t, fr, coeffs.Length))
  {
    hide Walked, Related, RegionsFrom, Predictor, Filtered;
    var lpc := new real[MAX_ORDER];
    var hist := coeffs[..];
    ghost var size := coeffs.Length;
    ghost var done: seq<Region> := [];
    WalkStart(t, fr, size);
    RelatedStart(hist);
    var w := 0;
    while w < fr.numWindows
      invariant 0 <= w <= fr.numWindows
      invariant Walked(done, t, fr, size, w, 0, fr.numSwb) && Related(coeffs[..], hist, done)
    {
      var bottom: nat := fr.numSwb;
      var filt := 0;
      while filt < t.nFilt[w]
        invariant 0 <= filt <= t.nFilt[w] && bottom <= fr.numSwb
        invariant Walked(done, t, fr, size, w, filt, bottom) && Related(coeffs[..], hist, done)
      {
        var top: nat := bottom;
        bottom := Max(0, top - t.length[w][filt]);
        var order := t.order[w][filt];
        WalkNextFilter(done, t, fr, size, w, filt, top);
        ghost var rs := RegionsAt(t, fr, w, filt, bottom, top);
        var start, end := fr.Edge(bottom), fr.Edge(top);
        if order != 0 && end - start > 0 {
          RefToLpc(t.refl[w][filt], order, lpc);
          var inc := 1;
          if t.down[w][filt] {
            inc := -1;
            start := end - 1;
          }
          start := start + w * 128;
          ghost var before := coeffs[..];
          UntouchedRegion(before, hist, done, rs[0]);
          AnalyseRegion(coeffs, hist, start, inc, end - fr.Edge(bottom), order, lpc, rs[0]);
          SameOffSelf(hist, rs[0]);
          RelatedStep(before, hist, coeffs[..], hist, done, rs[0]);
          assert rs == [rs[0]];
        } else {
          assert done + rs == done;
        }
        done := done + rs;
        filt := filt + 1;
      }
      WalkNextWindow(done, t, fr, size, w, filt, bottom);
      w := w + 1;
    }
    WalkEnd(done, t, fr, size, w);
  }

  lemma WalkEnd(done: seq<Region>, t: Tns, fr: Frame, size: nat, w: nat)
    requires Fits(t, fr, size) && Walked(done, t, fr, size, w, 0, fr.numSwb) && w >= fr.numWindows
    ensures done == AllRegions(t, fr, size)
  {
    RegionsEnd(t, fr, size, w, fr.numSwb);
    assert done + [] == done;
  }

  lemma RelatedStart(x: seq<real>)
    ensures Related(x, x, [])
  {
  }

  lemma SameOffSelf(x: seq<real>, r: Region)
    ensures SameOff(x, x, r)
  {
  }

  /** The decoder's data: the same filters with coefficients in Q31. */
  ghost predicate SameFilters(fixed: seq<seq<seq<real>>>, t: Tns, fr: Frame, size: nat)
    requires Fits(t, fr, size)
  {
    |fixed| >= fr.numWindows &&
    forall w: nat :: w < fr.numWindows ==>
      t.nFilt[w] <= |fixed[w]| && forall f: nat :: f < t.nFilt[w] ==> Q31(fixed[w][f], t.refl[w][f])
  }

  /** The decoder: filters every region recursively in place. */
  method ApplyTnsFixed(coef: array<real>, fixed: seq<seq<seq<real>>>, t: Tns, fr: Frame)
    requires Fits(t, fr, coef.Length) && SameFilters(fixed, t, fr, coef.Length)
    modifies coef
    ensures Related(old(coef[..]), coef[..], AllRegions(t, fr, coef.Length))
  {
    hide Walked, Related, RegionsFrom, Predictor, Filtered, Q31;
    ghost var y := coef[..];
    ghost var size := coef.Length;
    RelatedStart(y);
    if fr.cap == 0 {
      NoRegions(t, fr, size, 0, 0, fr.numSwb);
      return;
    }
    var lpc := new real[MAX_ORDER];
    ghost var done: seq<Region> := [];
    WalkStart(t, fr, size);
    var w := 0;
    while w < fr.numWindows
      invariant 0 <= w <= fr.numWindows
      invariant Walked(done, t, fr, size, w, 0, fr.numSwb) && Related(y, coef[..], done)
    {
      var bottom: nat := fr.numSwb;
      var filt := 0;
      while filt < t.nFilt[w]
        invariant 0 <= filt <= t.nFilt[w] && bottom <= fr.numSwb
        invariant Walked(done, t, fr, size, w, filt, bottom) && Related(y, coef[..], done)
      {
        var top: nat := bottom;
        bottom := Max(0, top - t.length[w][filt]);
        var order := t.order[w][filt];
        WalkNextFilter(done, t, fr, size, w, filt, top);
        ghost var rs := RegionsAt(t, fr, w, filt, bottom, top);
        if order != 0 {
          FixedShape(fixed, t, fr, size, w, filt);
          ComputeLpcFixed(fixed[w][filt], order, lpc, t.refl[w][filt]);
          var start, end := fr.Edge(bottom), fr.Edge(top);
          if end - start > 0 {
            var inc := 1;
            if t.down[w][filt] {
              inc := -1;
              start := end - 1;
            }
            start := start + w * 128;
            ghost var before := coef[..];
            UntouchedRegion(y, before, done, rs[0]);
            SynthesiseRegion(coef, start, inc, end - fr.Edge(bottom), order, lpc, rs[0]);
            FilteredFromInput(y, before, coef[..], rs[0]);
            SameOffSelf(y, rs[0]);
            RelatedStep(y, before, y, coef[..], done, rs[0]);
            assert rs == [rs[0]];
          } else {
            assert done + rs == done;
          }
        } else {
          assert done + rs == done;
        }
        done := done + rs;
        filt := filt + 1;
      }
      WalkNextWindow(done, t, fr, size, w, filt, bottom);
      w := w + 1;
    }
    WalkEnd(done, t, fr, size, w);
  }

  lemma FixedShape(fixed: seq<seq<seq<real>>>, t: Tns, fr: Frame, size: nat, w: nat, f: nat)
    requires Fits(t, fr, size) && SameFilters(fixed, t, fr, size) && w < fr.numWindows && f < t.nFilt[w]
    ensures w < |fixed| && f < |fixed[w]| && Q31(fixed[w][f], t.refl[w][f]) && |fixed[w][f]| == |t.refl[w][f]|
  {
  }

  lemma FilteredFromInput(y: seq<real>, before: seq<real>, z: seq<real>, r: Region)
    requires Filtered(before, z, r) && SameOn(y, before, r)
    ensures Filtered(y, z, r)
  {
    FilteredLocal(before, z, y, z, r);
  }

  /** With no band allowed, there is no region. */
  lemma {:induction false} NoRegions(t: Tns, fr: Frame, size: nat, w: nat, f: nat, top: nat)
    requires Fits(t, fr, size) && top <= fr.numSwb && fr.cap == 0
    ensures RegionsFrom(t, fr, size, w, f, top) == []
    decreases fr.numWindows - w, if w < fr.numWindows then t.nFilt[w] - f else 0
  {
    if w < fr.numWindows {
      if f < t.nFilt[w] {
        NoRegions(t, fr, size, w, f + 1, Max(0, top - t.length[w][f]));
      } else {
        NoRegions(t, fr, size, w + 1, 0, fr.numSwb);
      }
    }
  }

  /** Encode, then decode: the spectrum comes back. */
  method FilterAndUndo(coeffs: array<real>, fixed: seq<seq<seq<real>>>, t: Tns, fr: Frame)
    requires Fits(t, fr, coeffs.Length) && SameFilters(fixed, t, fr, coeffs.Length)
    modifies coeffs
    ensures coeffs[..] == old(coeffs[..])
  {
    hide Related;
    ApplyTns(coeffs, t, fr);
    ghost var y := coeffs[..];
    ApplyTnsFixed(coeffs, fixed, t, fr);
    SynthesisUndoesAnalysis(old(coeffs[..]), y, coeffs[..], AllRegions(t, fr, coeffs.Length));
  }

  /** Decode, then encode: the filtered spectrum comes back. */
  method UndoAndFilter(coeffs: array<real>, fixed: seq<seq<seq<real>>>, t: Tns, fr: Frame)
    requires Fits(t, fr, coeffs.Length) && SameFilters(fixed, t, fr, coeffs.Length)
    modifies coeffs
    ensures coeffs[..] == old(coeffs[..])
  {
    hide Related;
    ApplyTnsFixed(coeffs, fixed, t, fr);
    ghost var z := coeffs[..];
    ApplyTns(coeffs, t, fr);
    AnalysisUndoesSynthesis(z, old(coeffs[..]), coeffs[..], AllRegions(t, fr, coeffs.Length));
  }
}
